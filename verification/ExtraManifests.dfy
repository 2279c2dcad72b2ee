/** The extra manifest ids of a depot: validated, collapsed, sorted and capped - and when the cap
    makes more evidence protect less. */
module ExtraManifests {
  import opened Digits
  import opened Gc
  import opened StringOrder

  function ValidExtras(extras: seq<string>): set<string> {
    set id | id in extras && ValidManifestId(id)
  }

  function Smaller(ids: set<string>, id: string): set<string> {
    set x | x in ids && Less(x, id)
  }

  /** The ids that are read: the first of the sorted distinct valid ones, up to the cap. */
  function UsedExtras(extras: seq<string>): set<string> {
    set id | id in ValidExtras(extras) && |Smaller(ValidExtras(extras), id)| < MAX_EXTRA_MANIFESTS
  }

  predicate Sorted(ids: seq<string>) {
    forall i, k :: 0 <= i < k < |ids| ==> Less(ids[i], ids[k])
  }

  ghost predicate Lists(ids: seq<string>, all: set<string>) {
    Sorted(ids) && forall x :: x in ids <==> x in all
  }

  lemma InsertSorted(ids: seq<string>, id: string, at: nat)
    requires Sorted(ids) && at <= |ids| && id !in ids
    requires forall i :: 0 <= i < at ==> Less(ids[i], id)
    requires at < |ids| ==> !Less(ids[at], id)
    ensures Sorted(ids[..at] + [id] + ids[at..])
    ensures forall x :: x in ids[..at] + [id] + ids[at..] <==> x in ids || x == id
  {
    var longer := ids[..at] + [id] + ids[at..];
    forall k | at <= k < |ids| ensures Less(id, ids[k]) {
      Trichotomy(ids[at], id);
      if at < k { Transitive(id, ids[at], ids[k]); }
    }
    forall x ensures x in longer <==> x in ids || x == id {
      assert ids == ids[..at] + ids[at..];
    }
  }

  /** Collapsing and sorting; an unusable id is sorted behind all others and protects nothing. */
  method OrderExtras(extras: seq<string>) returns (ordered: seq<string>)
    ensures Lists(ordered, ValidExtras(extras))
  {
    ordered := [];
    for i := 0 to |extras|
      invariant Sorted(ordered)
      invariant forall x :: x in ordered <==> x in extras[..i] && ValidManifestId(x)
    {
      hide ValidManifestId;
      assert extras[..i + 1] == extras[..i] + [extras[i]];
      if ValidManifestId(extras[i]) && extras[i] !in ordered {
        var at := 0;
        while at < |ordered| && Less(ordered[at], extras[i])
          invariant at <= |ordered|
          invariant forall k :: 0 <= k < at ==> Less(ordered[k], extras[i])
        {
          at := at + 1;
        }
        InsertSorted(ordered, extras[i], at);
        ordered := ordered[..at] + [extras[i]] + ordered[at..];
      }
    }
    assert extras[..|extras|] == extras;
  }

  // ---------------------------------------------------------------- ranks

  lemma {:induction false} SortedIsDistinct(ids: seq<string>)
    requires Sorted(ids)
    ensures |set x | x in ids| == |ids|
  {
    if ids != [] {
      var n := |ids| - 1;
      var front := ids[..n];
      SortedIsDistinct(front);
      forall i | 0 <= i < n ensures front[i] != ids[n] { Trichotomy(ids[i], ids[n]); }
      assert (set x | x in ids) == (set x | x in front) + {ids[n]};
    }
  }

  /** Exactly the ids before it in the sorted list are smaller. */
  lemma RankInOrder(ids: seq<string>, all: set<string>, i: nat)
    requires Lists(ids, all) && i < |ids|
    ensures |Smaller(all, ids[i])| == i
  {
    var before := ids[..i];
    forall x ensures x in Smaller(all, ids[i]) <==> x in before {
      if x in ids {
        var k :| 0 <= k < |ids| && ids[k] == x;
        Trichotomy(x, ids[i]);
        if k < i { assert before[k] == x; }
      }
    }
    SortedIsDistinct(before);
    assert Smaller(all, ids[i]) == set x | x in before;
  }

  lemma FirstAreUsed(ordered: seq<string>, extras: seq<string>)
    requires Lists(ordered, ValidExtras(extras))
    ensures var used := if |ordered| <= MAX_EXTRA_MANIFESTS then ordered else ordered[..MAX_EXTRA_MANIFESTS];
      forall x :: x in used <==> x in UsedExtras(extras)
  {
    var used := if |ordered| <= MAX_EXTRA_MANIFESTS then ordered else ordered[..MAX_EXTRA_MANIFESTS];
    forall x ensures x in used <==> x in UsedExtras(extras) {
      if x in ordered {
        var i :| 0 <= i < |ordered| && ordered[i] == x;
        RankInOrder(ordered, ValidExtras(extras), i);
        assert i < |used| ==> used[i] == x;
        if x in used {
          var k :| 0 <= k < |used| && used[k] == x;
          RankInOrder(ordered, ValidExtras(extras), k);
        }
      }
    }
  }

  // ---------------------------------------------------------------- when more ids only add

  lemma {:induction false} Largest(ids: set<string>) returns (top: string)
    requires ids != {}
    ensures top in ids && Smaller(ids, top) == ids - {top}
    decreases |ids|
  {
    var some :| some in ids;
    var rest := ids - {some};
    if rest == {} {
      top := some;
      Trichotomy(some, some);
    } else {
      var best := Largest(rest);
      Trichotomy(best, some);
      top := if Less(best, some) then some else best;
      forall x | x in ids - {top} ensures Less(x, top) {
        if x != best && x != some {
          assert x in Smaller(rest, best);
          if top == some { Transitive(x, best, some); }
        }
      }
      Trichotomy(top, top);
    }
  }

  lemma AllAreUsed(extras: seq<string>)
    requires |ValidExtras(extras)| <= MAX_EXTRA_MANIFESTS
    ensures UsedExtras(extras) == ValidExtras(extras)
  {
    var ids := ValidExtras(extras);
    forall id | id in ids ensures id in UsedExtras(extras) {
      Trichotomy(id, id);
      assert Smaller(ids, id) <= ids - {id};
      FewerIn(Smaller(ids, id), ids - {id});
    }
  }

  lemma FewerIn(a: set<string>, b: set<string>)
    requires a <= b
    ensures |a| <= |b|
  {
    assert b == a + (b - a);
  }

  /** Whoever has some of these ids is never better off than with all of them. */
  ghost predicate OnlyAdds(extras: seq<string>) {
    forall less: seq<string> :: ValidExtras(less) <= ValidExtras(extras) ==> UsedExtras(less) <= UsedExtras(extras)
  }

  /** More ids only add if and only if at most as many distinct valid ids are given as the cap
      allows: beyond it the largest is read when given alone and pushed out when given with the rest. */
  lemma OnlyAddsExactlyWhen(extras: seq<string>)
    ensures OnlyAdds(extras) <==> |ValidExtras(extras)| <= MAX_EXTRA_MANIFESTS
  {
    hide ValidManifestId;
    var ids := ValidExtras(extras);
    if |ids| <= MAX_EXTRA_MANIFESTS {
      AllAreUsed(extras);
      forall less: seq<string> | ValidExtras(less) <= ids ensures UsedExtras(less) <= UsedExtras(extras) {
      }
    } else {
      var top := Largest(ids);
      var alone := [top];
      assert ValidExtras(alone) == {top};
      AllAreUsed(alone);
      assert top in UsedExtras(alone) && top !in UsedExtras(extras);
    }
  }

  // ---------------------------------------------------------------- thirty-three ids

  function TwoDigits(n: nat): string
    requires 10 <= n < 100
  {
    [('0' as int + n / 10) as char, ('0' as int + n % 10) as char]
  }

  function ThirtyThree(): seq<string> {
    seq(33, i requires 0 <= i < 33 => TwoDigits(10 + i))
  }

  lemma InNumberOrder(m: nat, n: nat)
    requires 10 <= m < n < 100
    ensures Less(TwoDigits(m), TwoDigits(n)) && ValidManifestId(TwoDigits(n)) && ValidManifestId(TwoDigits(m))
  {
    var (a, b) := (TwoDigits(m), TwoDigits(n));
    assert a[1..] == [a[1]] && b[1..] == [b[1]];
  }

  /** The ids 10 to 42: with the other thirty-two, 42 is not read any more. */
  lemma ThirtyThreeDropOne()
    ensures var ids := ThirtyThree();
      && TwoDigits(42) in ids && TwoDigits(42) in UsedExtras([TwoDigits(42)]) && TwoDigits(42) !in UsedExtras(ids)
  {
    var ids := ThirtyThree();
    forall i, k | 0 <= i < k < |ids| ensures Less(ids[i], ids[k]) { InNumberOrder(10 + i, 10 + k); }
    forall x | x in ids ensures ValidManifestId(x) {
      var i :| 0 <= i < |ids| && ids[i] == x;
      if i < 32 { InNumberOrder(10 + i, 42); } else { InNumberOrder(10, 42); }
    }
    hide ValidManifestId, TwoDigits;
    assert ids[32] == TwoDigits(42);
    assert Lists(ids, ValidExtras(ids));
    RankInOrder(ids, ValidExtras(ids), 32);
    assert ValidExtras([TwoDigits(42)]) == {TwoDigits(42)};
    AllAreUsed([TwoDigits(42)]);
  }
}
