/** The smart ranker of backend/src/utils/smartScheduler.js: every
    candidate slot is scored by how many same-duration bookings touch it
    (one ending where it starts, one starting where it ends); when some
    slot scores, only the scoring slots are returned, best first. */
module SmartScheduler {
  import opened Records

  /** A slot with the score added to its fields (`{ ...slot, score }`). */
  datatype ScoredSlot = ScoredSlot(slot: Slot, score: int)

  /** `getDuration`: the whole minutes between start and end. */
  function GetDuration(a: Appointment): int
  {
    a.endTime - a.startTime
  }

  /** A booking of the slot's duration that ends where the slot starts. */
  predicate IsBefore(a: Appointment, slot: Slot)
  {
    a.endTime == slot.startTime && GetDuration(a) == slot.duration
  }

  /** A booking of the slot's duration that starts where the slot ends. */
  predicate IsAfter(a: Appointment, slot: Slot)
  {
    a.startTime == slot.endTime && GetDuration(a) == slot.duration
  }

  /** `Array.prototype.find`: the first element that satisfies `p`. */
  function Find(appts: seq<Appointment>, p: Appointment -> bool): (r: Option<Appointment>)
    ensures r.None? <==> forall a :: a in appts ==> !p(a)
    ensures r.Some? ==> exists i :: 0 <= i < |appts| && appts[i] == r.value && p(r.value) &&
                                    forall j :: 0 <= j < i ==> !p(appts[j])
  {
    if appts == [] then None
    else if p(appts[0]) then Some(appts[0])
    else
      var r := Find(appts[1..], p);
      assert r.Some? ==> exists i :: 0 <= i < |appts| && appts[i] == r.value && p(r.value) &&
                                     forall j :: 0 <= j < i ==> !p(appts[j]) by {
        if r.Some? {
          var i :| 0 <= i < |appts[1..]| && appts[1..][i] == r.value && p(r.value) &&
                   forall j :: 0 <= j < i ==> !p(appts[1..][j]);
          assert forall j :: 0 <= j < i + 1 ==> !p(appts[j]) by {
            forall j | 0 <= j < i + 1 ensures !p(appts[j]) {
              if j > 0 { assert appts[j] == appts[1..][j - 1]; }
            }
          }
        }
      }
      r
  }

  /** The score of one slot: one point for a touching booking before it,
      one for a touching booking after it. */
  function Score(slot: Slot, appts: seq<Appointment>): (r: int)
    ensures 0 <= r <= 2
    ensures r > 0 <==> exists a :: a in appts && (IsBefore(a, slot) || IsAfter(a, slot))
    ensures r == 2 <==> (exists a :: a in appts && IsBefore(a, slot)) &&
                        (exists a :: a in appts && IsAfter(a, slot))
  {
    var before := Find(appts, a => IsBefore(a, slot));
    var after := Find(appts, a => IsAfter(a, slot));
    (if before.Some? then 1 else 0) + (if after.Some? then 1 else 0)
  }

  /** The `slots.map` step. */
  function ScoreSlots(slots: seq<Slot>, appts: seq<Appointment>): (r: seq<ScoredSlot>)
    ensures |r| == |slots|
    ensures forall i :: 0 <= i < |r| ==>
              && r[i].slot == slots[i] && r[i].score == Score(slots[i], appts)
              && 0 <= r[i].score <= 2
              && (r[i].score > 0 <==> exists a :: a in appts && (IsBefore(a, slots[i]) || IsAfter(a, slots[i])))
  {
    seq(|slots|, i requires 0 <= i < |slots| => ScoredSlot(slots[i], Score(slots[i], appts)))
  }

  /** `filter(slot => slot.score > 0)`. */
  function Positive(s: seq<ScoredSlot>): (r: seq<ScoredSlot>)
    ensures |r| <= |s|
    ensures forall x :: x in r <==> x in s && x.score > 0
    ensures forall x: ScoredSlot :: x.score > 0 ==> multiset(r)[x] == multiset(s)[x]
    ensures forall x: ScoredSlot :: x.score <= 0 ==> multiset(r)[x] == 0
  {
    if s == [] then []
    else
      assert s == [s[0]] + s[1..];
      if s[0].score > 0 then [s[0]] + Positive(s[1..]) else Positive(s[1..])
  }

  /** The elements of `s` that have score `k`, in their order in `s`. */
  function WithScore(s: seq<ScoredSlot>, k: int): seq<ScoredSlot>
  {
    if s == [] then []
    else if s[0].score == k then [s[0]] + WithScore(s[1..], k)
    else WithScore(s[1..], k)
  }

  /** Non-increasing by score. */
  predicate SortedDesc(s: seq<ScoredSlot>)
  {
    forall i, j :: 0 <= i < j < |s| ==> s[i].score >= s[j].score
  }

  /** Places `x`, which came before every element of `s` in the input,
      ahead of the first element that does not outscore it. */
  function Insert(x: ScoredSlot, s: seq<ScoredSlot>): (r: seq<ScoredSlot>)
    ensures multiset(r) == multiset(s) + multiset{x}
    ensures forall y :: y in r <==> y == x || y in s
    ensures SortedDesc(s) ==> SortedDesc(r)
  {
    if s == [] then [x]
    else if x.score >= s[0].score then
      assert s == [s[0]] + s[1..];
      HeadBounds(s);
      ConsSorted(x, s);
      [x] + s
    else
      var t := Insert(x, s[1..]);
      assert s == [s[0]] + s[1..];
      HeadBounds(s);
      ConsSorted(s[0], t);
      [s[0]] + t
  }

  /** The head of a sorted sequence outscores the rest, which stays sorted. */
  lemma HeadBounds(s: seq<ScoredSlot>)
    requires |s| > 0
    ensures SortedDesc(s) ==> SortedDesc(s[1..]) && forall y :: y in s ==> s[0].score >= y.score
  {
  }

  /** A head that outscores a sorted tail gives a sorted sequence. */
  lemma ConsSorted(a: ScoredSlot, t: seq<ScoredSlot>)
    ensures SortedDesc(t) && (forall y :: y in t ==> a.score >= y.score) ==> SortedDesc([a] + t)
  {
    if SortedDesc(t) && (forall y :: y in t ==> a.score >= y.score) {
      forall i, j | 0 <= i < j < |[a] + t| ensures ([a] + t)[i].score >= ([a] + t)[j].score {
        assert ([a] + t)[j] == t[j - 1];
        assert t[j - 1] in t;
      }
    }
  }

  /** `sort((a, b) => b.score - a.score)`: a stable insertion sort by
      descending score. */
  function SortByScoreDesc(s: seq<ScoredSlot>): (r: seq<ScoredSlot>)
    ensures multiset(r) == multiset(s)
    ensures forall y :: y in r <==> y in s
    ensures SortedDesc(r)
  {
    if s == [] then []
    else
      assert s == [s[0]] + s[1..];
      Insert(s[0], SortByScoreDesc(s[1..]))
  }

  /** `getSmartAvailabilityUtil`. */
  function GetSmartAvailabilityUtil(slots: seq<Slot>, appts: seq<Appointment>): (r: seq<ScoredSlot>)
    ensures |r| <= |slots|
  {
    var scored := ScoreSlots(slots, appts);
    var filtered := Positive(scored);
    if |filtered| > 0 then
      assert |multiset(SortByScoreDesc(filtered))| == |filtered|;
      SortByScoreDesc(filtered)
    else scored
  }

  // ---------------------------------------------------------------------
  // Stability: the slots of one score keep their input order.

  lemma {:induction false} WithScoreInsert(x: ScoredSlot, s: seq<ScoredSlot>, k: int)
    ensures WithScore(Insert(x, s), k) ==
            if x.score == k then [x] + WithScore(s, k) else WithScore(s, k)
  {
    if s == [] {
    } else if x.score >= s[0].score {
      assert ([x] + s)[1..] == s;
    } else {
      WithScoreInsert(x, s[1..], k);
      assert ([s[0]] + Insert(x, s[1..]))[1..] == Insert(x, s[1..]);
    }
  }

  lemma {:induction false} WithScoreSort(s: seq<ScoredSlot>, k: int)
    ensures WithScore(SortByScoreDesc(s), k) == WithScore(s, k)
  {
    if s != [] {
      WithScoreSort(s[1..], k);
      WithScoreInsert(s[0], SortByScoreDesc(s[1..]), k);
    }
  }

  lemma {:induction false} WithScorePositive(s: seq<ScoredSlot>, k: int)
    requires k > 0
    ensures WithScore(Positive(s), k) == WithScore(s, k)
  {
    if s != [] {
      WithScorePositive(s[1..], k);
      if s[0].score > 0 {
        assert ([s[0]] + Positive(s[1..]))[1..] == Positive(s[1..]);
      }
    }
  }

  /** The stable sort is a stable sort: sorted, a permutation, and the
      elements of each score in input order. */
  lemma SortIsStable(s: seq<ScoredSlot>)
    ensures SortedDesc(SortByScoreDesc(s))
    ensures multiset(SortByScoreDesc(s)) == multiset(s)
    ensures forall k :: WithScore(SortByScoreDesc(s), k) == WithScore(s, k)
  {
    forall k ensures WithScore(SortByScoreDesc(s), k) == WithScore(s, k) {
      WithScoreSort(s, k);
    }
  }

  // ---------------------------------------------------------------------
  // What the ranker returns.

  /** Every returned element is an input slot, unchanged, with its score. */
  lemma RankedAreScoredInputs(slots: seq<Slot>, appts: seq<Appointment>)
    ensures forall x :: x in GetSmartAvailabilityUtil(slots, appts) ==>
              exists i :: 0 <= i < |slots| && x == ScoredSlot(slots[i], Score(slots[i], appts))
  {
    var scored := ScoreSlots(slots, appts);
    var filtered := Positive(scored);
    var r := GetSmartAvailabilityUtil(slots, appts);
    forall x | x in r
      ensures exists i :: 0 <= i < |slots| && x == ScoredSlot(slots[i], Score(slots[i], appts))
    {
      assert x in scored;
      var i :| 0 <= i < |scored| && scored[i] == x;
    }
  }

  /** Some slot scores: the result is exactly the scoring slots, best
      first, ties in input order. */
  lemma RankingWhenSomeSlotScores(slots: seq<Slot>, appts: seq<Appointment>)
    requires exists i :: 0 <= i < |slots| && Score(slots[i], appts) > 0
    ensures var r := GetSmartAvailabilityUtil(slots, appts);
            && SortedDesc(r)
            && (forall x :: x in r ==> x.score > 0)
            && multiset(r) == multiset(Positive(ScoreSlots(slots, appts)))
            && (forall k :: k > 0 ==> WithScore(r, k) == WithScore(ScoreSlots(slots, appts), k))
  {
    var scored := ScoreSlots(slots, appts);
    var filtered := Positive(scored);
    var i :| 0 <= i < |slots| && Score(slots[i], appts) > 0;
    assert scored[i].score > 0 && scored[i] in scored;
    assert |filtered| > 0;
    var r := SortByScoreDesc(filtered);
    assert GetSmartAvailabilityUtil(slots, appts) == r;
    forall k | k > 0 ensures WithScore(r, k) == WithScore(scored, k) {
      WithScoreSort(filtered, k);
      WithScorePositive(scored, k);
    }
  }

  /** No slot scores: every input slot is returned, in order, with score 0. */
  lemma RankingFallback(slots: seq<Slot>, appts: seq<Appointment>)
    requires forall i :: 0 <= i < |slots| ==> Score(slots[i], appts) == 0
    ensures var r := GetSmartAvailabilityUtil(slots, appts);
            |r| == |slots| && forall i :: 0 <= i < |slots| ==> r[i] == ScoredSlot(slots[i], 0)
  {
    var scored := ScoreSlots(slots, appts);
    var filtered := Positive(scored);
    if |filtered| > 0 {
      assert false;
    }
  }

  /** Slots 10:00 and 14:00 of 30 minutes and a 30-minute booking that
      ends at 10:00: only the 10:00 slot is returned, with score 1. */
  lemma AdjacencyExample()
    ensures var s1, s2 := Slot(600, 630, 30), Slot(840, 870, 30);
            GetSmartAvailabilityUtil([s1, s2], [Appointment(1, "a", "a@x", 570, 600)]) ==
              [ScoredSlot(s1, 1)]
  {
    var s1, s2 := Slot(600, 630, 30), Slot(840, 870, 30);
    var appts := [Appointment(1, "a", "a@x", 570, 600)];
    assert Score(s1, appts) == 1 by {
      assert IsBefore(appts[0], s1) && !IsAfter(appts[0], s1);
    }
    assert Score(s2, appts) == 0;
    var scored := ScoreSlots([s1, s2], appts);
    assert scored == [ScoredSlot(s1, 1), ScoredSlot(s2, 0)];
    assert Positive(scored) == [ScoredSlot(s1, 1)] by {
      assert scored[1..] == [ScoredSlot(s2, 0)];
      assert Positive(scored[1..]) == [];
    }
  }

  /** Two sorted sequences with the same elements of every score in the
      same order are equal: the ranking above determines the result. */
  lemma {:induction false} SortedDeterminedByScoreClasses(a: seq<ScoredSlot>, b: seq<ScoredSlot>)
    requires SortedDesc(a) && SortedDesc(b)
    requires forall k :: WithScore(a, k) == WithScore(b, k)
    ensures a == b
  {
    WithScoreHead(a);
    WithScoreHead(b);
    if a != [] && b != [] {
      WithScoreAbove(a, b[0].score);
      WithScoreAbove(b, a[0].score);
      assert a[0].score == b[0].score;
      assert a[0] == b[0];
      forall k ensures WithScore(a[1..], k) == WithScore(b[1..], k) {
        if k == a[0].score {
          assert WithScore(a[1..], k) == WithScore(a, k)[1..];
          assert WithScore(b[1..], k) == WithScore(b, k)[1..];
        } else {
          assert WithScore(a[1..], k) == WithScore(a, k);
          assert WithScore(b[1..], k) == WithScore(b, k);
        }
      }
      SortedDesc1(a);
      SortedDesc1(b);
      SortedDeterminedByScoreClasses(a[1..], b[1..]);
      assert a == [a[0]] + a[1..];
      assert b == [b[0]] + b[1..];
    }
  }

  lemma SortedDesc1(s: seq<ScoredSlot>)
    requires SortedDesc(s) && s != []
    ensures SortedDesc(s[1..])
  {
    forall i, j | 0 <= i < j < |s[1..]| ensures s[1..][i].score >= s[1..][j].score {
      assert s[1..][i] == s[i + 1] && s[1..][j] == s[j + 1];
    }
  }

  /** The head of a sequence heads its own score class. */
  lemma WithScoreHead(s: seq<ScoredSlot>)
    ensures s != [] ==> WithScore(s, s[0].score) != [] && WithScore(s, s[0].score)[0] == s[0]
  {
  }

  /** In a sorted sequence no element outscores the head. */
  lemma {:induction false} WithScoreAbove(s: seq<ScoredSlot>, k: int)
    requires SortedDesc(s) && s != []
    ensures k > s[0].score ==> WithScore(s, k) == []
  {
    if |s| > 1 {
      SortedDesc1(s);
      assert s[1..][0] == s[1];
      WithScoreAbove(s[1..], k);
    }
  }
}
