/**
 Message numbers, and the acknowledgements a resource waits for: each register or unregister command
 carries a number of its own, the resource manager broadcasts the number back, and a resource is ready
 when the last of its outstanding numbers has come back.
 */
module Resource {
  import opened Wrappers

  // ---------------------------------------------------------------- numbers

  /** A 32-bit increment that skips zero. */
  function NextNr(nr: nat): (r: nat)
    requires nr < 0x1_0000_0000
    ensures 0 < r < 0x1_0000_0000
  {
    var r := (nr + 1) % 0x1_0000_0000;
    if r == 0 then (r + 1) % 0x1_0000_0000 else r
  }

  /** The number after n draws from a fresh counter. */
  function NrAt(n: nat): (r: nat)
    ensures r < 0x1_0000_0000
  {
    if n == 0 then 0 else NextNr(NrAt(n - 1))
  }

  lemma NextNrIs(nr: nat)
    requires nr < 0x1_0000_0000
    ensures NextNr(nr) == if nr == 0xFFFF_FFFF then 1 else nr + 1
  {
  }

  /** The n-th number, and how often the counter has come round before it. */
  lemma {:induction false} Rounds(n: nat) returns (q: nat)
    requires n > 0
    ensures 1 <= NrAt(n) <= 0xFFFF_FFFF && n == q * 0xFFFF_FFFF + NrAt(n)
  {
    if n == 1 {
      assert NrAt(0) == 0;
      NextNrIs(0);
      q := 0;
    } else {
      q := Rounds(n - 1);
      NextNrIs(NrAt(n - 1));
      if NrAt(n - 1) == 0xFFFF_FFFF { q := q + 1; }
    }
  }

  lemma NrAtIs(n: nat)
    requires n > 0
    ensures NrAt(n) == (n - 1) % 0xFFFF_FFFF + 1
  {
    var q := Rounds(n);
    Residue(n - 1, q, NrAt(n) - 1);
  }

  lemma Residue(d: int, q: int, r: nat)
    requires d == q * 0xFFFF_FFFF + r && r < 0xFFFF_FFFF
    ensures d % 0xFFFF_FFFF == r
  {
  }

  /** Two draws give the same number exactly when they lie a multiple of the period apart; zero is
      never drawn. */
  lemma NumbersRepeatIff(i: nat, j: nat)
    requires 0 < i <= j
    ensures NrAt(i) == NrAt(j) <==> (j - i) % 0xFFFF_FFFF == 0
    ensures NrAt(i) != 0
  {
    var p := Rounds(i);
    var q := Rounds(j);
    var a: int, b: int := NrAt(i), NrAt(j);
    if a <= b {
      Residue(j - i, q - p, b - a);
    } else {
      Residue(j - i, q - p - 1, 0xFFFF_FFFF + b - a);
    }
  }

  lemma NumbersDistinct(i: nat, j: nat)
    requires 0 < i < j < i + 0xFFFF_FFFF
    ensures NrAt(i) != NrAt(j)
  {
    NumbersRepeatIff(i, j);
    SmallResidue(j - i);
  }

  lemma SmallResidue(d: nat)
    requires 0 < d < 0xFFFF_FFFF
    ensures d % 0xFFFF_FFFF != 0
  {
  }

  class MsgCounter {
    var msgNr: nat
    ghost var drawn: nat

    ghost predicate Valid()
      reads this
    {
      msgNr == NrAt(drawn)
    }

    constructor ()
      ensures Valid() && drawn == 0
    {
      msgNr, drawn := 0, 0;
    }

    method GetMsgNr() returns (nr: nat)
      requires Valid()
      modifies this
      ensures Valid() && drawn == old(drawn) + 1 && nr == NrAt(drawn)
    {
      msgNr := (msgNr + 1) % 0x1_0000_0000;
      if msgNr == 0 {
        msgNr := (msgNr + 1) % 0x1_0000_0000;
      }
      drawn := drawn + 1;
      return msgNr;
    }
  }

  // ---------------------------------------------------------------- acknowledgements

  function RemoveOne(list: seq<nat>, n: nat): (r: seq<nat>)
    ensures |r| <= |list|
  {
    if list == [] then [] else if list[0] == n then list[1..] else [list[0]] + RemoveOne(list[1..], n)
  }

  /** The list after an acknowledgement. */
  function Acked(list: seq<nat>, n: nat): seq<nat>
  {
    if n in list then RemoveOne(list, n) else list
  }

  /** The ready signal is raised by the acknowledgement that empties the list. */
  predicate Readies(list: seq<nat>, n: nat)
  {
    n in list && RemoveOne(list, n) == []
  }

  function AckedAll(list: seq<nat>, acks: seq<nat>): seq<nat>
  {
    if acks == [] then list else Acked(AckedAll(list, acks[..|acks| - 1]), acks[|acks| - 1])
  }

  ghost predicate NoDup(list: seq<nat>)
  {
    forall i, j :: 0 <= i < j < |list| ==> list[i] != list[j]
  }

  lemma {:induction false} RemoveOneIs(list: seq<nat>, n: nat)
    requires NoDup(list)
    ensures NoDup(RemoveOne(list, n))
    ensures forall x :: x in RemoveOne(list, n) <==> x in list && x != n
  {
    if list != [] {
      var t := list[1..];
      assert list == [list[0]] + t;
      RemoveOneIs(t, n);
      assert list[0] !in t;
    }
  }

  lemma {:induction false} AckedAllIs(batch: seq<nat>, acks: seq<nat>)
    requires NoDup(batch)
    ensures NoDup(AckedAll(batch, acks))
    ensures forall x :: x in AckedAll(batch, acks) <==> x in batch && x !in acks
  {
    if acks != [] {
      var m := |acks| - 1;
      AckedAllIs(batch, acks[..m]);
      RemoveOneIs(AckedAll(batch, acks[..m]), acks[m]);
      assert acks == acks[..m] + [acks[m]];
    }
  }

  ghost predicate Covers(acks: seq<nat>, batch: seq<nat>)
  {
    forall n :: n in batch ==> n in acks
  }

  /** Whatever acknowledgements arrive, in whatever order, with duplicates and foreign numbers among them:
      the k-th raises the ready signal exactly when it is the one that completes the batch. */
  lemma ReadyOnCompletion(batch: seq<nat>, acks: seq<nat>, k: nat)
    requires NoDup(batch) && k < |acks|
    ensures Readies(AckedAll(batch, acks[..k]), acks[k]) <==> Covers(acks[..k + 1], batch) && !Covers(acks[..k], batch)
  {
    var list := AckedAll(batch, acks[..k]);
    AckedAllIs(batch, acks[..k]);
    AckedAllIs(batch, acks[..k + 1]);
    assert acks[..k + 1][..k] == acks[..k];
    assert AckedAll(batch, acks[..k + 1]) == Acked(list, acks[k]);
    EmptyIffCovered(batch, acks[..k]);
    EmptyIffCovered(batch, acks[..k + 1]);
    if acks[k] in list { assert list != []; }
  }

  lemma EmptyIffCovered(batch: seq<nat>, acks: seq<nat>)
    requires NoDup(batch)
    ensures AckedAll(batch, acks) == [] <==> Covers(acks, batch)
  {
    AckedAllIs(batch, acks);
    var list := AckedAll(batch, acks);
    if list != [] { assert list[0] in list; }
  }

  /** So a batch raises the signal at most once. */
  lemma ReadyOnce(batch: seq<nat>, acks: seq<nat>, j: nat, k: nat)
    requires NoDup(batch) && j < |acks| && k < |acks|
    requires Readies(AckedAll(batch, acks[..j]), acks[j]) && Readies(AckedAll(batch, acks[..k]), acks[k])
    ensures j == k
  {
    ReadyOnCompletion(batch, acks, j);
    ReadyOnCompletion(batch, acks, k);
    CoversMore(batch, acks, j + 1, k);
    CoversMore(batch, acks, k + 1, j);
  }

  lemma CoversMore(batch: seq<nat>, acks: seq<nat>, j: nat, k: nat)
    requires j <= |acks| && k <= |acks|
    ensures j <= k && Covers(acks[..j], batch) ==> Covers(acks[..k], batch)
  {
    if j <= k { assert acks[..k] == acks[..j] + acks[j..k]; }
  }

  // ---------------------------------------------------------------- several resources, one counter

  /** The outstanding draws of every resource; a draw stands for its number. */
  datatype Registry = Registry(drawn: nat, lists: seq<seq<nat>>)

  datatype Wire = Send(resource: nat) | Clear(resource: nat) | Broadcast(nr: nat)

  function WithoutNr(draws: seq<nat>, nr: nat): (r: seq<nat>)
    ensures |r| <= |draws|
  {
    if draws == [] then [] else if NrAt(draws[0]) == nr then draws[1..] else [draws[0]] + WithoutNr(draws[1..], nr)
  }

  /** The outstanding list of a resource as it holds it: the numbers of its draws. */
  function Numbers(draws: seq<nat>): (r: seq<nat>)
    ensures |r| == |draws| && forall i :: 0 <= i < |draws| ==> r[i] == NrAt(draws[i])
  {
    seq(|draws|, i requires 0 <= i < |draws| => NrAt(draws[i]))
  }

  /** A broadcast acknowledgement does to the numbers what it does to the draws they stand for. */
  lemma {:induction false} NumbersAcked(draws: seq<nat>, nr: nat)
    ensures Numbers(WithoutNr(draws, nr)) == Acked(Numbers(draws), nr)
  {
    if draws != [] {
      var ns := Numbers(draws);
      assert ns[0] == NrAt(draws[0]) && ns[1..] == Numbers(draws[1..]);
      if NrAt(draws[0]) != nr {
        NumbersAcked(draws[1..], nr);
        assert nr in ns <==> nr in ns[1..];
      }
    }
  }

  lemma NumbersMore(draws: seq<nat>, d: nat)
    ensures Numbers(draws + [d]) == Numbers(draws) + [NrAt(d)]
  {
  }

  /** One step as every resource sees it: a broadcast takes its number off every list that has it, a command
      puts the next number at the end of its resource's list, and no other list changes. */
  lemma StepOnNumbers(s: Registry, e: Wire, r: nat)
    requires r < |s.lists|
    ensures Numbers(Stepped(s, e).lists[r]) ==
            match e
            case Broadcast(nr) => Acked(Numbers(s.lists[r]), nr)
            case Send(q) => if q == r then Numbers(s.lists[r]) + [NrAt(s.drawn + 1)] else Numbers(s.lists[r])
            case Clear(q) => if q == r then [] else Numbers(s.lists[r])
  {
    match e
    case Broadcast(nr) => NumbersAcked(s.lists[r], nr);
    case Send(q) => NumbersMore(s.lists[r], s.drawn + 1);
    case Clear(_) =>
  }

  function Stepped(s: Registry, e: Wire): (t: Registry)
    ensures |t.lists| == |s.lists|
  {
    match e
    case Send(r) =>
      if r < |s.lists| then Registry(s.drawn + 1, s.lists[r := s.lists[r] + [s.drawn + 1]]) else s
    case Clear(r) => if r < |s.lists| then s.(lists := s.lists[r := []]) else s
    case Broadcast(nr) => s.(lists := seq(|s.lists|, r requires 0 <= r < |s.lists| => WithoutNr(s.lists[r], nr)))
  }

  function SteppedAll(s: Registry, es: seq<Wire>): (t: Registry)
    ensures |t.lists| == |s.lists|
  {
    if es == [] then s else Stepped(SteppedAll(s, es[..|es| - 1]), es[|es| - 1])
  }

  /** No draw is outstanding twice, in one resource or in two. */
  ghost predicate Apart(s: Registry)
  {
    && (forall r :: 0 <= r < |s.lists| ==> NoDup(s.lists[r]))
    && (forall r, d :: 0 <= r < |s.lists| && d in s.lists[r] ==> 0 < d <= s.drawn)
    && (forall r, q, d :: 0 <= r < q < |s.lists| && d in s.lists[r] ==> d !in s.lists[q])
  }

  lemma {:induction false} WithoutNrIs(draws: seq<nat>, nr: nat)
    requires NoDup(draws)
    ensures NoDup(WithoutNr(draws, nr))
    ensures forall d :: d in WithoutNr(draws, nr) ==> d in draws
  {
    if draws != [] {
      assert draws == [draws[0]] + draws[1..];
      WithoutNrIs(draws[1..], nr);
      assert draws[0] !in draws[1..];
    }
  }

  lemma StepApart(s: Registry, e: Wire)
    requires Apart(s)
    ensures Apart(Stepped(s, e))
  {
    if e.Broadcast? {
      forall r | 0 <= r < |s.lists|
        ensures NoDup(WithoutNr(s.lists[r], e.nr)) && forall d :: d in WithoutNr(s.lists[r], e.nr) ==> d in s.lists[r]
      {
        WithoutNrIs(s.lists[r], e.nr);
      }
    } else if e.Send? && e.resource < |s.lists| {
      var list := s.lists[e.resource];
      forall i | 0 <= i < |list| ensures list[i] != s.drawn + 1 { assert list[i] in list; }
      assert NoDup(list + [s.drawn + 1]);
    }
  }

  lemma {:induction false} RunApart(s: Registry, es: seq<Wire>)
    requires Apart(s)
    ensures Apart(SteppedAll(s, es))
  {
    if es != [] {
      RunApart(s, es[..|es| - 1]);
      StepApart(SteppedAll(s, es[..|es| - 1]), es[|es| - 1]);
    }
  }

  /** No outstanding number has been drawn again in the meantime. */
  ghost predicate WithinPeriod(s: Registry)
  {
    forall r, d :: 0 <= r < |s.lists| && d in s.lists[r] ==> s.drawn - d < 0xFFFF_FFFF
  }

  /** In every run, as long as no number has come round while still outstanding, a broadcast
      acknowledgement is claimed by one resource at most, and by one outstanding command of it. */
  lemma OneClaimant(n: nat, es: seq<Wire>, r: nat, q: nat, d: nat, f: nat)
    requires var s := SteppedAll(Registry(0, seq(n, _ => [])), es);
             WithinPeriod(s) && r < n && q < n && d in s.lists[r] && f in s.lists[q] && NrAt(d) == NrAt(f)
    ensures r == q && d == f
  {
    var s0 := Registry(0, seq(n, _ => []));
    assert Apart(s0);
    RunApart(s0, es);
    if d < f { NumbersDistinct(d, f); } else if f < d { NumbersDistinct(f, d); }
  }

  /** Two different outstanding commands lie a multiple of the period apart. */
  ghost predicate RoundApart(s: Registry)
  {
    exists r, q, d, f :: Holds(s, r, d) && Holds(s, q, f) && d < f && (f - d) % 0xFFFF_FFFF == 0
  }

  predicate Holds(s: Registry, r: nat, d: nat) { r < |s.lists| && d in s.lists[r] }

  /** Two different outstanding commands, of one resource or two, claim the same broadcast. */
  ghost predicate ClaimedTwice(s: Registry)
  {
    exists r, q, d, f :: Holds(s, r, d) && Holds(s, q, f) && (r != q || d != f) && NrAt(d) == NrAt(f)
  }

  /** In every run, some broadcast is claimed twice exactly when two outstanding commands lie a multiple of
      the period apart. */
  lemma ClaimedTwiceIff(n: nat, es: seq<Wire>)
    ensures var s := SteppedAll(Registry(0, seq(n, _ => [])), es);
            ClaimedTwice(s) <==> RoundApart(s)
  {
    var s0 := Registry(0, seq(n, _ => []));
    var s := SteppedAll(s0, es);
    assert Apart(s0);
    RunApart(s0, es);
    if r, q, d, f :| Holds(s, r, d) && Holds(s, q, f) && (r != q || d != f) && NrAt(d) == NrAt(f) {
      TwiceApart(s, r, q, d, f);
    }
    if r, q, d, f :| Holds(s, r, d) && Holds(s, q, f) && d < f && (f - d) % 0xFFFF_FFFF == 0 {
      assert 0 < d;
      NumbersRepeatIff(d, f);
    }
  }

  lemma TwiceApart(s: Registry, r: nat, q: nat, d: nat, f: nat)
    requires Apart(s) && Holds(s, r, d) && Holds(s, q, f) && (r != q || d != f) && NrAt(d) == NrAt(f)
    ensures RoundApart(s)
  {
    assert 0 < d && 0 < f;
    assert d != f;
    if d < f { NumbersRepeatIff(d, f); } else { NumbersRepeatIff(f, d); }
  }

  lemma {:induction false} SentMany(k: nat)
    ensures var s := SteppedAll(Registry(0, seq(1, _ => [])), Filled(Send(0), k));
            s.drawn == k && forall d :: 1 <= d <= k ==> d in s.lists[0]
  {
    if k > 0 {
      SentMany(k - 1);
      assert Filled(Send(0), k)[..k - 1] == Filled(Send(0), k - 1);
    }
  }

  /** Runs in which one broadcast is claimed twice: a first command still outstanding when the counter, after
      k commands in all, has come round to its number again. */
  lemma RoundClaimedTwice(k: nat)
    requires k > 1 && (k - 1) % 0xFFFF_FFFF == 0
    ensures ClaimedTwice(SteppedAll(Registry(0, seq(1, _ => [])), Filled(Send(0), k)))
  {
    var s := SteppedAll(Registry(0, seq(1, _ => [])), Filled(Send(0), k));
    SentMany(k);
    assert Holds(s, 0, 1) && Holds(s, 0, k);
    NumbersRepeatIff(1, k);
  }

  /** So, in terms of what the resources hold: no list has a number twice, and no two lists share one. */
  lemma OneHolder(n: nat, es: seq<Wire>, r: nat, q: nat, nr: nat)
    requires var s := SteppedAll(Registry(0, seq(n, _ => [])), es);
             WithinPeriod(s) && r < n && q < n && nr in Numbers(s.lists[r]) && nr in Numbers(s.lists[q])
    ensures r == q && NoDup(Numbers(SteppedAll(Registry(0, seq(n, _ => [])), es).lists[r]))
  {
    var s0 := Registry(0, seq(n, _ => []));
    var s := SteppedAll(s0, es);
    assert Apart(s0);
    RunApart(s0, es);
    var a, b := s.lists[r], s.lists[q];
    var i :| 0 <= i < |a| && Numbers(a)[i] == nr;
    var j :| 0 <= j < |b| && Numbers(b)[j] == nr;
    OneClaimant(n, es, r, q, a[i], b[j]);
    forall k, l | 0 <= k < l < |a| ensures Numbers(a)[k] != Numbers(a)[l] {
      if NrAt(a[k]) == NrAt(a[l]) { OneClaimant(n, es, r, r, a[k], a[l]); }
    }
  }
}
