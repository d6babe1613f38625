/** Version vectors kept without trailing zeros. */
module VersionVector {
  /** A replica and a sequence number it issued. */
  datatype Lamport = Lamport(value: nat, replica: nat)

  function Max(a: nat, b: nat): nat {
    if a < b then b else a
  }

  function Min(a: nat, b: nat): nat {
    if a < b then a else b
  }

  /** The sequence number observed for a replica; absent entries read as 0. */
  function At(v: seq<nat>, replica: nat): nat {
    if replica < |v| then v[replica] else 0
  }

  /** Empty, or ending in an observed replica. */
  predicate Normal(v: seq<nat>) {
    v == [] || v[|v| - 1] != 0
  }

  function Resized(v: seq<nat>, len: nat): (r: seq<nat>)
    ensures |r| == if |v| < len then len else |v|
    ensures forall k :: At(r, k) == At(v, k)
  {
    if |v| < len then v + seq(len - |v|, _ => 0) else v
  }

  function Trim(v: seq<nat>): (r: seq<nat>)
    ensures Normal(r) && |r| <= |v|
    ensures forall k :: At(r, k) == At(v, k)
    ensures r == v[..|r|]
  {
    if v != [] && v[|v| - 1] == 0 then Trim(v[..|v| - 1]) else v
  }

  // ---------- What the operations compute ----------

  function Observed(v: seq<nat>, t: Lamport): (r: seq<nat>)
    ensures Normal(v) ==> Normal(r)
    ensures forall k :: At(r, k) == if k == t.replica then Max(At(v, k), t.value) else At(v, k)
  {
    if t.value == 0 then v
    else
      var w := Resized(v, t.replica + 1);
      w[t.replica := Max(w[t.replica], t.value)]
  }

  function Joined(a: seq<nat>, b: seq<nat>): (r: seq<nat>)
    ensures Normal(a) && Normal(b) ==> Normal(r)
    ensures forall k :: At(r, k) == Max(At(a, k), At(b, k))
  {
    seq(Max(|a|, |b|), k requires k >= 0 => Max(At(a, k), At(b, k)))
  }

  /** The smaller of two sequence numbers, where 0 means unobserved and gives way to anything. */
  function MeetAt(x: nat, y: nat): nat {
    if x == 0 then y else if y == 0 then x else Min(x, y)
  }

  function Met(a: seq<nat>, b: seq<nat>): (r: seq<nat>)
    ensures Normal(a) && Normal(b) ==> Normal(r)
    ensures forall k :: At(r, k) == MeetAt(At(a, k), At(b, k))
  {
    if |a| <= |b| then Trim(MetRaw(a, b)) else MetRaw(a, b)
  }

  function MetRaw(a: seq<nat>, b: seq<nat>): seq<nat> {
    seq(Max(|a|, |b|), k requires k >= 0 => MeetAt(At(a, k), At(b, k)))
  }

  /** For vectors in normal form there is nothing to trim: the last entry of the longer one stays. */
  lemma MeetNeedsNoTrimming(a: seq<nat>, b: seq<nat>)
    requires Normal(a) && Normal(b)
    ensures Normal(MetRaw(a, b)) && Met(a, b) == MetRaw(a, b)
  {
    var raw := MetRaw(a, b);
    if raw != [] {
      assert raw[|raw| - 1] == MeetAt(At(a, |raw| - 1), At(b, |raw| - 1));
    }
    NormalFormIsCanonical(Met(a, b), raw);
  }

  function FromList(ts: seq<Lamport>): (r: seq<nat>)
    ensures Normal(r)
  {
    if ts == [] then [] else Observed(FromList(ts[..|ts| - 1]), ts[|ts| - 1])
  }

  // ---------- The comparisons, with their shortcuts on lengths ----------

  predicate HasObserved(v: seq<nat>, t: Lamport) {
    At(v, t.replica) >= t.value
  }

  predicate ObservedAny(a: seq<nat>, b: seq<nat>) {
    exists k :: 0 <= k < Min(|a|, |b|) && b[k] > 0 && a[k] >= b[k]
  }

  predicate ObservedAll(a: seq<nat>, b: seq<nat>) {
    |a| >= |b| && forall k :: 0 <= k < Min(|a|, |b|) ==> a[k] >= b[k]
  }

  predicate ChangedSince(a: seq<nat>, b: seq<nat>) {
    |a| > |b| || exists k :: 0 <= k < Min(|a|, |b|) && a[k] > b[k]
  }

  /** The order the comparisons are about. */
  ghost predicate Leq(a: seq<nat>, b: seq<nat>) {
    forall k :: At(a, k) <= At(b, k)
  }

  /** In normal form, vectors that read the same everywhere are equal. */
  lemma NormalFormIsCanonical(a: seq<nat>, b: seq<nat>)
    requires Normal(a) && Normal(b)
    ensures a == b <==> forall k: nat :: At(a, k) == At(b, k)
  {
    if |a| < |b| {
      assert At(a, |b| - 1) != At(b, |b| - 1);
    } else if |b| < |a| {
      assert At(a, |a| - 1) != At(b, |a| - 1);
    } else if a != b {
      var k :| 0 <= k < |a| && a[k] != b[k];
      assert At(a, k) != At(b, k);
    }
  }

  lemma ObservedAllIsPointwise(a: seq<nat>, b: seq<nat>)
    requires Normal(b)
    ensures ObservedAll(a, b) <==> Leq(b, a)
  {
    if |a| < |b| {
      assert At(b, |b| - 1) > At(a, |b| - 1);
    } else if Leq(b, a) {
      forall k | 0 <= k < Min(|a|, |b|)
        ensures a[k] >= b[k]
      {
        assert At(b, k) <= At(a, k);
      }
    }
  }

  /** `changed_since` is the negation of `observed_all` the other way round. */
  lemma ChangedSinceIsNotObserved(a: seq<nat>, b: seq<nat>)
    requires Normal(a)
    ensures ChangedSince(a, b) <==> !ObservedAll(b, a)
    ensures ChangedSince(a, b) <==> exists k: nat :: At(a, k) > At(b, k)
  {
    ObservedAllIsPointwise(b, a);
    if ChangedSince(a, b) {
      if |a| > |b| {
        assert At(a, |a| - 1) > At(b, |a| - 1);
      } else {
        var k :| 0 <= k < Min(|a|, |b|) && a[k] > b[k];
        assert At(a, k) > At(b, k);
      }
    }
  }

  lemma ObservedAnyIsPointwise(a: seq<nat>, b: seq<nat>)
    ensures ObservedAny(a, b) <==> exists k: nat :: At(b, k) > 0 && At(a, k) >= At(b, k)
  {
    if k: nat :| At(b, k) > 0 && At(a, k) >= At(b, k) {
      assert 0 <= k < Min(|a|, |b|) && b[k] > 0 && a[k] >= b[k];
    }
    if ObservedAny(a, b) {
      var k :| 0 <= k < Min(|a|, |b|) && b[k] > 0 && a[k] >= b[k];
      assert At(b, k) > 0 && At(a, k) >= At(b, k);
    }
  }

  /** The length shortcut is right for a vector, whatever it is compared with, exactly when the vector is in normal form. */
  lemma ShortcutIsRightIff(b: seq<nat>)
    ensures (forall a :: ObservedAll(a, b) <==> Leq(b, a)) <==> Normal(b)
  {
    if Normal(b) {
      forall a
        ensures ObservedAll(a, b) <==> Leq(b, a)
      {
        ObservedAllIsPointwise(a, b);
      }
    } else {
      var a := b[..|b| - 1];
      assert forall k :: At(b, k) == At(a, k);
      assert Leq(b, a) && !ObservedAll(a, b);
    }
  }

  /** `join` is the least upper bound. */
  lemma JoinIsLeastUpperBound(a: seq<nat>, b: seq<nat>, c: seq<nat>)
    ensures Leq(Joined(a, b), c) <==> Leq(a, c) && Leq(b, c)
  {
    forall k
      ensures At(Joined(a, b), k) <= At(c, k) <==> At(a, k) <= At(c, k) && At(b, k) <= At(c, k)
    {
    }
    if Leq(Joined(a, b), c) {
      assert forall k :: At(Joined(a, b), k) <= At(c, k);
    }
  }

  lemma MeetIsCommutative(a: seq<nat>, b: seq<nat>)
    requires Normal(a) && Normal(b)
    ensures Met(a, b) == Met(b, a)
  {
    NormalFormIsCanonical(Met(a, b), Met(b, a));
  }

  lemma MeetIsAssociative(a: seq<nat>, b: seq<nat>, c: seq<nat>)
    requires Normal(a) && Normal(b) && Normal(c)
    ensures Met(Met(a, b), c) == Met(a, Met(b, c))
  {
    NormalFormIsCanonical(Met(Met(a, b), c), Met(a, Met(b, c)));
  }

  lemma MeetIsIdempotent(a: seq<nat>)
    requires Normal(a)
    ensures Met(a, a) == a
  {
    NormalFormIsCanonical(Met(a, a), a);
  }

  lemma JoinIsASemilattice(a: seq<nat>, b: seq<nat>, c: seq<nat>)
    requires Normal(a) && Normal(b) && Normal(c)
    ensures Joined(a, b) == Joined(b, a)
    ensures Joined(Joined(a, b), c) == Joined(a, Joined(b, c))
    ensures Joined(a, a) == a
  {
    NormalFormIsCanonical(Joined(a, b), Joined(b, a));
    NormalFormIsCanonical(Joined(Joined(a, b), c), Joined(a, Joined(b, c)));
    NormalFormIsCanonical(Joined(a, a), a);
  }

  /** Joining adds nothing exactly when everything was observed already. */
  lemma JoinAbsorbsIff(a: seq<nat>, b: seq<nat>)
    requires Normal(a) && Normal(b)
    ensures Joined(a, b) == b <==> ObservedAll(b, a)
  {
    NormalFormIsCanonical(Joined(a, b), b);
    ObservedAllIsPointwise(b, a);
    if Joined(a, b) == b {
      forall k: nat
        ensures At(a, k) <= At(b, k)
      {
        assert At(Joined(a, b), k) == At(b, k);
      }
    } else {
      var k: nat :| At(Joined(a, b), k) != At(b, k);
      assert At(a, k) > At(b, k);
    }
  }

  /** A vector built from timestamps holds, for each replica, the largest of its timestamps. */
  lemma {:induction false} FromListIsMaximum(ts: seq<Lamport>, replica: nat)
    ensures forall i :: 0 <= i < |ts| && ts[i].replica == replica ==> ts[i].value <= At(FromList(ts), replica)
    ensures At(FromList(ts), replica) == 0
         || exists i :: 0 <= i < |ts| && ts[i] == Lamport(At(FromList(ts), replica), replica)
  {
    if ts != [] {
      var n := |ts| - 1;
      FromListIsMaximum(ts[..n], replica);
      var m := At(FromList(ts[..n]), replica);
      assert ts == ts[..n] + [ts[n]];
      if At(FromList(ts), replica) == m && m != 0 {
        var i :| 0 <= i < n && ts[..n][i] == Lamport(m, replica);
        assert ts[i] == Lamport(m, replica);
      }
      forall i | 0 <= i < |ts| && ts[i].replica == replica
        ensures ts[i].value <= At(FromList(ts), replica)
      {
        if i < n {
          assert ts[i] == ts[..n][i];
        }
      }
    }
  }

  /** The order in which timestamps arrive, and repetitions, make no difference. */
  lemma FromListIgnoresOrder(ts: seq<Lamport>, us: seq<Lamport>)
    requires forall t :: t in ts <==> t in us
    ensures FromList(ts) == FromList(us)
  {
    forall k: nat
      ensures At(FromList(ts), k) == At(FromList(us), k)
    {
      FromListIsMaximum(ts, k);
      FromListIsMaximum(us, k);
      var x, y := At(FromList(ts), k), At(FromList(us), k);
      assert x == 0 || Lamport(x, k) in us;
      assert y == 0 || Lamport(y, k) in ts;
    }
    NormalFormIsCanonical(FromList(ts), FromList(us));
  }

  // ---------- The version vector itself ----------

  class Global {
    var values: seq<nat>

    ghost predicate Valid()
      reads this
    {
      Normal(values)
    }

    constructor ()
      ensures Valid() && values == []
    {
      values := [];
    }

    /** Observes the timestamps one after the other. */
    constructor FromIter(ts: seq<Lamport>)
      ensures Valid() && values == FromList(ts)
    {
      values := [];
      new;
      for i := 0 to |ts|
        invariant values == FromList(ts[..i])
      {
        assert ts[..i + 1][..i] == ts[..i];
        Observe(ts[i]);
      }
      assert ts[..|ts|] == ts;
    }

    method Observe(t: Lamport)
      requires Valid()
      modifies this
      ensures Valid() && values == Observed(old(values), t)
    {
      if t.value > 0 {
        var newLen := t.replica + 1;
        if newLen > |values| {
          values := values + seq(newLen - |values|, _ => 0);
        }
        values := values[t.replica := Max(values[t.replica], t.value)];
      }
    }

    method Join(other: Global)
      requires Valid() && other.Valid() && other != this
      modifies this
      ensures Valid() && values == Joined(old(values), other.values)
    {
      values := Resized(values, |other.values|);
      var i := 0;
      while i < |other.values|
        invariant 0 <= i <= |other.values| && |values| == Max(|old(values)|, |other.values|)
        invariant forall k :: 0 <= k < |values| ==>
                    values[k] == if k < i then Max(At(old(values), k), At(other.values, k)) else At(old(values), k)
      {
        assert At(other.values, i) == other.values[i];
        values := values[i := Max(values[i], other.values[i])];
        i := i + 1;
      }
      assert values == Joined(old(values), other.values);
    }

    method Meet(other: Global)
      requires Valid() && other.Valid() && other != this
      modifies this
      ensures Valid() && values == Met(old(values), other.values)
    {
      ghost var raw := MetRaw(values, other.values);
      values := Resized(values, |other.values|);
      var newLen := 0;
      var i := 0;
      while i < |other.values|
        invariant 0 <= i <= |other.values| && |values| == |raw|
        invariant forall k :: 0 <= k < |values| ==> values[k] == if k < i then raw[k] else At(old(values), k)
        invariant newLen <= i && (newLen > 0 ==> raw[newLen - 1] != 0)
        invariant forall k :: newLen <= k < i ==> raw[k] == 0
      {
        var left, right := values[i], other.values[i];
        if left == 0 {
          values := values[i := right];
        } else if right != 0 {
          values := values[i := Min(left, right)];
        }
        if values[i] != 0 {
          newLen := i + 1;
        }
        i := i + 1;
      }
      assert values == raw;
      if |other.values| == |values| {
        TrimIsPrefix(raw, newLen);
        values := values[..newLen];
      }
    }
  }

  lemma {:induction false} TrimIsPrefix(v: seq<nat>, n: nat)
    requires n <= |v| && (n > 0 ==> v[n - 1] != 0)
    requires forall k :: n <= k < |v| ==> v[k] == 0
    ensures Trim(v) == v[..n]
    decreases |v|
  {
    if n < |v| {
      TrimIsPrefix(v[..|v| - 1], n);
    }
  }
}

/** Lamport clocks over runs of any number of replicas. */
module LamportRuns {
  import opened VersionVector

  /** The total order on timestamps: by value, ties broken by replica. */
  predicate Less(a: Lamport, b: Lamport) {
    a.value < b.value || (a.value == b.value && a.replica < b.replica)
  }

  lemma LessIsStrictTotalOrder(a: Lamport, b: Lamport, c: Lamport)
    ensures !Less(a, a)
    ensures Less(a, b) && Less(b, c) ==> Less(a, c)
    ensures Less(a, b) || Less(b, a) || a == b
  {
  }

  /** A 32-bit value and a 16-bit replica. */
  predicate InRange(t: Lamport) {
    t.value < 0x1_0000_0000 && t.replica < 0x1_0000
  }

  /** The packed form: the value in the upper half and the replica in the low bits, where or-ing is adding. */
  function AsU64(t: Lamport): (r: nat)
    requires InRange(t)
    ensures r < 0x1_0000_0000_0000_0000
  {
    t.value * 0x1_0000_0000 + t.replica
  }

  /** Packing preserves and reflects the order, and loses nothing. */
  lemma PackingIsAnOrderEmbedding(a: Lamport, b: Lamport)
    requires InRange(a) && InRange(b)
    ensures AsU64(a) < AsU64(b) <==> Less(a, b)
    ensures AsU64(a) == AsU64(b) <==> a == b
  {
  }

  function Ticked(clock: nat): nat {
    clock + 1
  }

  function Received(clock: nat, value: nat): nat {
    Max(clock, value) + 1
  }

  /** One replica's clock. */
  class LamportClock {
    var value: nat
    const replica: nat

    constructor (replica: nat)
      ensures value == 1 && this.replica == replica
    {
      value := 1;
      this.replica := replica;
    }

    method Tick() returns (t: Lamport)
      modifies this
      ensures t == Lamport(old(value), replica) && value == Ticked(old(value))
    {
      t := Lamport(value, replica);
      value := value + 1;
    }

    method Observe(t: Lamport)
      modifies this
      ensures value == Received(old(value), t.value)
    {
      value := Max(value, t.value) + 1;
    }
  }

  // ---------- Runs ----------

  /** A replica issues a timestamp, or receives the one issued by the event at position `from`. */
  datatype Event = Issue(replica: nat) | Deliver(replica: nat, from: nat)

  /** Only timestamps already issued can be delivered. */
  ghost predicate IsRun(run: seq<Event>) {
    forall p :: 0 <= p < |run| && run[p].Deliver? ==> run[p].from < p && run[run[p].from].Issue?
  }

  /** The clock of `replica` after the first `n` events, each handled as `Tick` and `Observe` do. */
  ghost function ClockAfter(run: seq<Event>, n: nat, replica: nat): (c: nat)
    requires IsRun(run) && n <= |run|
    decreases n
  {
    if n == 0 then 1
    else
      var before := ClockAfter(run, n - 1, replica);
      if run[n - 1].replica != replica then before
      else
        match run[n - 1]
        case Issue(_) => Ticked(before)
        case Deliver(_, from) => Received(before, ClockAfter(run, from, run[from].replica))
  }

  /** The timestamp issued at position `p`. */
  ghost function StampAt(run: seq<Event>, p: nat): Lamport
    requires IsRun(run) && p < |run|
  {
    Lamport(ClockAfter(run, p, run[p].replica), run[p].replica)
  }

  lemma {:induction false} ClockNeverFallsBack(run: seq<Event>, m: nat, n: nat, replica: nat)
    requires IsRun(run) && m <= n <= |run|
    ensures 1 <= ClockAfter(run, m, replica) <= ClockAfter(run, n, replica)
    decreases n
  {
    if m < n {
      ClockNeverFallsBack(run, m, n - 1, replica);
    } else if m > 0 {
      ClockNeverFallsBack(run, m - 1, n - 1, replica);
    }
  }

  /** A replica's own timestamps strictly increase. */
  lemma OwnStampsIncrease(run: seq<Event>, p: nat, q: nat)
    requires IsRun(run) && p < q < |run|
    requires run[p].Issue? && run[q].Issue? && run[p].replica == run[q].replica
    ensures StampAt(run, p).value < StampAt(run, q).value
  {
    ClockNeverFallsBack(run, p + 1, q, run[p].replica);
  }

  /** No value is skipped: the one below a clock is what it showed before its last change, or what it received then. */
  lemma {:induction false} NoValueIsSkipped(run: seq<Event>, n: nat, replica: nat) returns (p: nat)
    requires IsRun(run) && n <= |run| && ClockAfter(run, n, replica) > 1
    ensures p < n && run[p].replica == replica && ClockAfter(run, p + 1, replica) == ClockAfter(run, n, replica)
    ensures var below := ClockAfter(run, n, replica) - 1;
            ClockAfter(run, p, replica) == below || (run[p].Deliver? && StampAt(run, run[p].from).value == below)
  {
    if run[n - 1].replica == replica {
      p := n - 1;
    } else {
      p := NoValueIsSkipped(run, n - 1, replica);
    }
  }

  /** Timestamps identify the events that issued them. */
  lemma StampsAreUnique(run: seq<Event>, p: nat, q: nat)
    requires IsRun(run) && p < |run| && q < |run| && run[p].Issue? && run[q].Issue?
    ensures StampAt(run, p) == StampAt(run, q) <==> p == q
  {
    if run[p].replica == run[q].replica {
      if p < q {
        OwnStampsIncrease(run, p, q);
      } else if q < p {
        OwnStampsIncrease(run, q, p);
      }
    }
  }

  /** The two ways an event can directly precede another: on the same replica, or by delivery. */
  ghost predicate Precedes(run: seq<Event>, p: nat, q: nat) {
    && p < q < |run|
    && (run[p].replica == run[q].replica || (run[q].Deliver? && run[q].from == p))
  }

  /** Happens-before: a chain of direct precedences. */
  ghost predicate IsChain(run: seq<Event>, chain: seq<nat>) {
    && |chain| >= 2
    && (forall k :: 0 <= k < |chain| ==> chain[k] < |run|)
    && (forall k, l :: 0 <= k < l < |chain| && l == k + 1 ==> Precedes(run, chain[k], chain[l]))
  }

  ghost predicate HappensBefore(run: seq<Event>, p: nat, q: nat) {
    exists chain :: IsChain(run, chain) && chain[0] == p && chain[|chain| - 1] == q
  }

  /** The clock its replica shows right after an event; it never decreases along a chain. */
  ghost function ClockAt(run: seq<Event>, p: nat): nat
    requires IsRun(run) && p < |run|
  {
    ClockAfter(run, p + 1, run[p].replica)
  }

  lemma DirectPrecedence(run: seq<Event>, p: nat, q: nat)
    requires IsRun(run) && Precedes(run, p, q)
    ensures ClockAt(run, p) <= ClockAt(run, q)
    ensures run[q].Issue? ==> ClockAt(run, p) <= StampAt(run, q).value
  {
    if run[p].replica == run[q].replica {
      ClockNeverFallsBack(run, p + 1, q, run[p].replica);
      ClockNeverFallsBack(run, p + 1, q + 1, run[p].replica);
    }
  }

  lemma {:induction false} ChainKeepsClock(run: seq<Event>, chain: seq<nat>, n: nat)
    requires IsRun(run) && IsChain(run, chain) && n < |chain|
    ensures ClockAt(run, chain[0]) <= ClockAt(run, chain[n])
  {
    if n > 0 {
      ChainKeepsClock(run, chain, n - 1);
      DirectPrecedence(run, chain[n - 1], chain[n]);
    }
  }

  /** The clock condition: whatever happens before is ordered before. */
  lemma HappensBeforeImpliesLess(run: seq<Event>, p: nat, q: nat)
    requires IsRun(run) && p < |run| && q < |run| && run[p].Issue? && run[q].Issue?
    requires HappensBefore(run, p, q)
    ensures StampAt(run, p).value < StampAt(run, q).value
    ensures Less(StampAt(run, p), StampAt(run, q))
  {
    var chain :| IsChain(run, chain) && chain[0] == p && chain[|chain| - 1] == q;
    var n := |chain| - 1;
    ChainKeepsClock(run, chain, n - 1);
    DirectPrecedence(run, chain[n - 1], chain[n]);
  }

  // ---------- A version vector fed by one replica ----------

  /** Positions, in order, at which `replica` issues. */
  ghost predicate IssuedBy(run: seq<Event>, replica: nat, ps: seq<nat>) {
    && (forall i, j :: 0 <= i < j < |ps| ==> ps[i] < ps[j])
    && (forall i :: 0 <= i < |ps| ==> ps[i] < |run| && run[ps[i]] == Issue(replica))
  }

  ghost function Stamps(run: seq<Event>, ps: seq<nat>): seq<Lamport>
    requires IsRun(run) && forall i :: 0 <= i < |ps| ==> ps[i] < |run|
  {
    seq(|ps|, i requires 0 <= i < |ps| => StampAt(run, ps[i]))
  }

  /** After the first `k` timestamps of a replica, a vector has observed those and no later one. */
  lemma FedInOrder(run: seq<Event>, replica: nat, ps: seq<nat>, k: nat, j: nat)
    requires IsRun(run) && IssuedBy(run, replica, ps) && k <= |ps| && j < |ps|
    ensures HasObserved(FromList(Stamps(run, ps)[..k]), StampAt(run, ps[j])) <==> j < k
  {
    var fed := Stamps(run, ps)[..k];
    FromListIsMaximum(fed, replica);
    ClockNeverFallsBack(run, 0, ps[j], replica);
    if j < k {
      assert fed[j] == StampAt(run, ps[j]);
    } else {
      forall i | 0 <= i < k
        ensures fed[i].value < StampAt(run, ps[j]).value
      {
        OwnStampsIncrease(run, ps[i], ps[j]);
      }
    }
  }
}
