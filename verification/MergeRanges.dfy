/** Merging a range into sorted disjoint ranges (console/xterm.js:6367-6408), in place. */
module MergeRanges {

  /** The integers lo up to, but not including, hi. */
  datatype Range = Range(lo: int, hi: int)

  predicate Covers(r: Range, x: int) {
    r.lo <= x < r.hi
  }

  ghost predicate Covered(rs: seq<Range>, x: int) {
    exists i :: 0 <= i < |rs| && Covers(rs[i], x)
  }

  /** Non-empty ranges, in order and without common points; neighbours may touch. */
  predicate Sorted(rs: seq<Range>) {
    && (forall i :: 0 <= i < |rs| ==> rs[i].lo < rs[i].hi)
    && (forall i, j :: 0 <= i < j < |rs| ==> rs[i].hi <= rs[j].lo)
  }

  /** Points of rs and r together, and no others, are covered by result. */
  ghost predicate IsUnion(result: seq<Range>, rs: seq<Range>, r: Range) {
    forall x :: Covered(result, x) <==> Covered(rs, x) || Covers(r, x)
  }

  function Min(a: int, b: int): int { if a < b then a else b }

  function Max(a: int, b: int): int { if a > b then a else b }

  lemma CoveredConcat(a: seq<Range>, b: seq<Range>, x: int)
    ensures Covered(a + b, x) <==> Covered(a, x) || Covered(b, x)
  {
    if Covered(a, x) {
      var i :| 0 <= i < |a| && Covers(a[i], x);
      assert Covers((a + b)[i], x);
    }
    if Covered(b, x) {
      var i :| 0 <= i < |b| && Covers(b[i], x);
      assert Covers((a + b)[|a| + i], x);
    }
  }

  lemma CoveredOne(r: Range, x: int)
    ensures Covered([r], x) <==> Covers(r, x)
  {
    assert [r][0] == r;
  }

  /** The parts before and after, with one range between them. */
  function Spliced(rs: seq<Range>, s: nat, g: nat, r: Range): seq<Range>
    requires s <= g <= |rs|
  {
    rs[..s] + [r] + rs[g..]
  }

  lemma SplicedSorted(rs: seq<Range>, s: nat, g: nat, r: Range)
    requires Sorted(rs) && s <= g <= |rs| && r.lo < r.hi
    requires (s > 0 ==> rs[s - 1].hi <= r.lo) && (g < |rs| ==> r.hi <= rs[g].lo)
    ensures Sorted(Spliced(rs, s, g, r))
  {
    SplicedAt(rs, s, g, r);
    SortedAround(rs, s, g, r, Spliced(rs, s, g, r));
  }

  lemma SortedAround(rs: seq<Range>, s: nat, g: nat, r: Range, t: seq<Range>)
    requires Sorted(rs) && s <= g <= |rs| && r.lo < r.hi
    requires (s > 0 ==> rs[s - 1].hi <= r.lo) && (g < |rs| ==> r.hi <= rs[g].lo)
    requires |t| == s + 1 + |rs| - g
    requires forall i {:trigger t[i]} :: 0 <= i < |t| ==> t[i] == if i < s then rs[i] else if i == s then r else rs[i - 1 - s + g]
    ensures Sorted(t)
  {
    if s > 0 { Ascending(rs, s - 1); }
    if g < |rs| { Ascending(rs, g); }
  }

  lemma SplicedAt(rs: seq<Range>, s: nat, g: nat, r: Range)
    requires s <= g <= |rs|
    ensures var t := Spliced(rs, s, g, r);
            |t| == s + 1 + |rs| - g
            && forall i :: 0 <= i < |t| ==> t[i] == if i < s then rs[i] else if i == s then r else rs[i - 1 - s + g]
  {
  }

  lemma Ascending(rs: seq<Range>, k: nat)
    requires Sorted(rs) && k < |rs|
    ensures forall i :: 0 <= i <= k ==> rs[i].hi <= rs[k].hi
    ensures forall i :: k <= i < |rs| ==> rs[k].lo <= rs[i].lo
  {
  }

  lemma SplicedCovers(rs: seq<Range>, s: nat, g: nat, r: Range, x: int)
    requires s <= g <= |rs|
    ensures Covered(Spliced(rs, s, g, r), x) <==> Covered(rs[..s], x) || Covers(r, x) || Covered(rs[g..], x)
    ensures Covered(rs, x) <==> Covered(rs[..s], x) || Covered(rs[s..g], x) || Covered(rs[g..], x)
  {
    hide Covered;
    CoveredConcat(rs[..s] + [r], rs[g..], x);
    CoveredConcat(rs[..s], [r], x);
    CoveredOne(r, x);
    CoveredConcat(rs[..s] + rs[s..g], rs[g..], x);
    CoveredConcat(rs[..s], rs[s..g], x);
    assert rs == rs[..s] + rs[s..g] + rs[g..];
  }

  /** The new range falls into a gap. */
  lemma InsertedIsUnion(rs: seq<Range>, i: nat, r: Range)
    requires Sorted(rs) && r.lo < r.hi && i <= |rs|
    requires (i > 0 ==> rs[i - 1].hi <= r.lo) && (i < |rs| ==> r.hi <= rs[i].lo)
    ensures Sorted(Spliced(rs, i, i, r)) && IsUnion(Spliced(rs, i, i, r), rs, r)
  {
    SplicedSorted(rs, i, i, r);
    assert rs[i..i] == [];
    forall x ensures Covered(Spliced(rs, i, i, r), x) <==> Covered(rs, x) || Covers(r, x) {
      SplicedCovers(rs, i, i, r, x);
      hide Sorted, Spliced;
    }
  }

  /** The new range meets the old ones from s up to g, which become one with it. */
  function Joint(rs: seq<Range>, s: nat, g: nat, r: Range): Range
    requires s < g <= |rs|
  {
    Range(Min(r.lo, rs[s].lo), Max(r.hi, rs[g - 1].hi))
  }

  ghost predicate Meets(rs: seq<Range>, s: nat, g: nat, r: Range) {
    && s < g <= |rs|
    && (s > 0 ==> rs[s - 1].hi <= r.lo) && r.lo < rs[s].hi
    && rs[g - 1].lo < r.hi && (g < |rs| ==> r.hi <= rs[g].lo)
  }

  lemma JointCovers(rs: seq<Range>, s: nat, g: nat, r: Range, x: int)
    requires Sorted(rs) && r.lo < r.hi && Meets(rs, s, g, r)
    ensures Covers(Joint(rs, s, g, r), x) <==> Covered(rs[s..g], x) || Covers(r, x)
  {
  }

  lemma JoinedIsUnion(rs: seq<Range>, s: nat, g: nat, r: Range)
    requires Sorted(rs) && r.lo < r.hi && Meets(rs, s, g, r)
    ensures var result := Spliced(rs, s, g, Joint(rs, s, g, r)); Sorted(result) && IsUnion(result, rs, r)
  {
    var joint := Joint(rs, s, g, r);
    assert s > 0 ==> rs[s - 1].hi <= rs[s].lo;
    assert g < |rs| ==> rs[g - 1].hi <= rs[g].lo;
    hide Sorted;
    SplicedSorted(rs, s, g, joint);
    forall x ensures Covered(Spliced(rs, s, g, joint), x) <==> Covered(rs, x) || Covers(r, x) {
      hide Spliced, Covered, Covers, Joint;
      SplicedCovers(rs, s, g, joint, x);
      JointCovers(rs, s, g, r, x);
    }
  }

  /**
   * Where the walk stands: the entries from i on are the old ones from g on. Once in range, entry
   * i - 1 stands for the old ones from i - 1 up to g, which r meets and reaches beyond.
   */
  ghost predicate Walking(rs: seq<Range>, now: seq<Range>, i: nat, g: nat, inRange: bool, r: Range) {
    && i <= g <= |rs| && i <= |now| && now[i..] == rs[g..]
    && (!inRange ==> i == g && now == rs && (i > 0 ==> rs[i - 1].hi <= r.lo))
    && (inRange ==>
      && 0 < i && now[..i - 1] == rs[..i - 1] && now[i - 1].lo == Min(r.lo, rs[i - 1].lo)
      && (i > 1 ==> rs[i - 2].hi <= r.lo) && i - 1 < g && r.lo < rs[i - 1].hi && rs[g - 1].hi < r.hi)
  }

  /** What the caller is promised. */
  ghost predicate Merged(result: seq<Range>, rs: seq<Range>, r: Range) {
    Sorted(result) && IsUnion(result, rs, r)
  }

  lemma WalkStarts(rs: seq<Range>, r: Range)
    ensures Walking(rs, rs, 0, 0, false, r)
  {
  }

  lemma CurrentRange(rs: seq<Range>, now: seq<Range>, i: nat, g: nat, inRange: bool, r: Range)
    requires Walking(rs, now, i, g, inRange, r) && i < |now|
    ensures g < |rs| && now[i] == rs[g]
  {
  }

  /** Outside the new range: a gap is found, the range is swallowed, or it is the first one met. */
  lemma BeforeRange(rs: seq<Range>, now: seq<Range>, i: nat, r: Range)
    requires Sorted(rs) && r.lo < r.hi && Walking(rs, now, i, i, false, r) && i < |now|
    ensures r.hi <= now[i].lo ==> Merged(now[..i] + [r] + now[i..], rs, r)
    ensures now[i].lo < r.hi <= now[i].hi ==> Merged(now[i := Range(Min(r.lo, now[i].lo), now[i].hi)], rs, r)
    ensures r.lo < now[i].hi < r.hi ==>
      Walking(rs, now[i := Range(Min(r.lo, now[i].lo), now[i].hi)], i + 1, i + 1, true, r)
    ensures now[i].hi <= r.lo ==> Walking(rs, now, i + 1, i + 1, false, r)
  {
    hide Sorted, IsUnion;
    if r.hi <= now[i].lo {
      InsertedIsUnion(rs, i, r);
    } else if r.hi <= now[i].hi {
      SortedAt(rs, i);
      JoinedIsUnion(rs, i, i + 1, r);
      assert now[i := Range(Min(r.lo, now[i].lo), now[i].hi)] == Spliced(rs, i, i + 1, Joint(rs, i, i + 1, r));
    }
  }

  lemma SortedAt(rs: seq<Range>, i: nat)
    requires Sorted(rs) && i < |rs|
    ensures rs[i].lo < rs[i].hi && (i + 1 < |rs| ==> rs[i].hi <= rs[i + 1].lo)
  {
  }

  /** Within the new range it ends before this range, inside it, or beyond it. */
  lemma InsideRange(rs: seq<Range>, now: seq<Range>, i: nat, g: nat, r: Range)
    requires Sorted(rs) && r.lo < r.hi && Walking(rs, now, i, g, true, r) && i < |now|
    ensures r.hi <= now[i].lo ==> Merged(now[i - 1 := Range(now[i - 1].lo, r.hi)], rs, r)
    ensures now[i].lo < r.hi <= now[i].hi ==>
      var grown := now[i - 1 := Range(now[i - 1].lo, Max(r.hi, now[i].hi))];
      Merged(grown[..i] + grown[i + 1..], rs, r)
    ensures now[i].hi < r.hi ==> Walking(rs, now[..i] + now[i + 1..], i, g + 1, true, r)
  {
    hide Sorted, IsUnion, Joint;
    CurrentRange(rs, now, i, g, true, r);
    SortedAt(rs, g);
    SortedAt(rs, g - 1);
    var cut := now[..i] + now[i + 1..];
    assert now[i + 1..] == now[i..][1..] == rs[g + 1..];
    assert cut[i..] == rs[g + 1..];
    assert cut[..i] == now[..i];
    assert cut[..i - 1] == now[..i - 1];
    if r.hi <= now[i].lo {
      JoinAgrees(rs, now, i, g, g, r);
    } else if r.hi <= now[i].hi {
      JoinAgrees(rs, cut, i, g, g + 1, r);
      var grown := now[i - 1 := Range(now[i - 1].lo, Max(r.hi, now[i].hi))];
      assert grown[..i] + grown[i + 1..] == cut[i - 1 := Range(cut[i - 1].lo, Max(r.hi, rs[g].hi))];
    }
  }

  /** Entry i - 1 gets its upper end: the list is the old one with everything the new range meets joined. */
  lemma JoinAgrees(rs: seq<Range>, now: seq<Range>, i: nat, g: nat, h: nat, r: Range)
    requires Sorted(rs) && r.lo < r.hi && 0 < i <= |now| && g <= h <= |rs| && Meets(rs, i - 1, h, r)
    requires now[..i - 1] == rs[..i - 1] && now[i - 1].lo == Min(r.lo, rs[i - 1].lo) && now[i..] == rs[h..]
    ensures Merged(now[i - 1 := Range(now[i - 1].lo, Max(r.hi, rs[h - 1].hi))], rs, r)
  {
    JoinedIsUnion(rs, i - 1, h, r);
    hide Sorted, IsUnion, Meets;
    var joint := Joint(rs, i - 1, h, r);
    var result := now[i - 1 := joint];
    assert result == now[..i - 1] + [joint] + now[i..];
    assert result == Spliced(rs, i - 1, h, joint);
  }

  /** The list is used up: the new range is the last one, or ends the last one. */
  lemma AfterAll(rs: seq<Range>, now: seq<Range>, i: nat, g: nat, inRange: bool, r: Range)
    requires Sorted(rs) && r.lo < r.hi && Walking(rs, now, i, g, inRange, r) && i == |now|
    ensures inRange ==> 0 < i && Merged(now[i - 1 := Range(now[i - 1].lo, r.hi)], rs, r)
    ensures !inRange ==> Merged(now + [r], rs, r)
  {
    hide Sorted, IsUnion;
    assert |now[i..]| == 0 && |rs[g..]| == |rs| - g;
    if inRange {
      SortedAt(rs, g - 1);
      JoinAgrees(rs, now, i, g, g, r);
    } else {
      InsertedIsUnion(rs, i, r);
      assert now + [r] == Spliced(rs, i, i, r);
    }
  }

  class Ranges {
    var ranges: seq<Range>

    /** Merges a range in; the list is edited while it is walked. */
    method MergeRanges(newRange: Range)
      requires Sorted(ranges) && newRange.lo < newRange.hi
      modifies this
      ensures Sorted(ranges) && IsUnion(ranges, old(ranges), newRange)
    {
      hide Sorted, IsUnion, Walking;
      ghost var rs := ranges;
      var inRange := false;
      var i := 0;
      ghost var g := 0;
      WalkStarts(rs, newRange);
      while i < |ranges|
        invariant i <= |ranges| && (if inRange then 0 < i else i == g)
        invariant Walking(rs, ranges, i, g, inRange, newRange)
        decreases |ranges| - i
      {
        var range := ranges[i];
        if !inRange {
          BeforeRange(rs, ranges, i, newRange);
          if newRange.hi <= range.lo {
            ranges := ranges[..i] + [newRange] + ranges[i..];
            return;
          }
          if newRange.hi <= range.hi {
            ranges := ranges[i := Range(Min(newRange.lo, range.lo), range.hi)];
            return;
          }
          if newRange.lo < range.hi {
            ranges := ranges[i := Range(Min(newRange.lo, range.lo), range.hi)];
            inRange := true;
          }
          i := i + 1;
        } else {
          InsideRange(rs, ranges, i, g, newRange);
          if newRange.hi <= range.lo {
            ranges := ranges[i - 1 := Range(ranges[i - 1].lo, newRange.hi)];
            return;
          }
          if newRange.hi <= range.hi {
            ranges := ranges[i - 1 := Range(ranges[i - 1].lo, Max(newRange.hi, range.hi))];
            ranges := ranges[..i] + ranges[i + 1..];
            inRange := false;
            return;
          }
          ranges := ranges[..i] + ranges[i + 1..];
        }
        g := g + 1;
      }
      AfterAll(rs, ranges, i, g, inRange, newRange);
      if inRange {
        ranges := ranges[|ranges| - 1 := Range(ranges[|ranges| - 1].lo, newRange.hi)];
      } else {
        ranges := ranges + [newRange];
      }
    }
  }
}
