/** Lists of CPU cores given as ranges, expanded and stripped of neighbouring duplicates. */
module Ranges {

  /** Core numbers are unsigned 32-bit words, and incrementing one wraps. */
  const LIMIT: nat := 0x1_0000_0000

  type Core = c: nat | c < LIMIT

  datatype Range = Range(low: Core, high: Core)

  function Next(c: Core): Core {
    if c + 1 == LIMIT then 0 else c + 1
  }

  /** Increments from low to high, around the end of the type if the range is inverted. */
  function Span(r: Range): nat {
    if r.low <= r.high then r.high - r.low else r.high - r.low + LIMIT
  }

  function Expand(r: Range): (s: seq<Core>)
    ensures |s| == Span(r) + 1
    ensures s[0] == r.low && s[|s| - 1] == r.high
    ensures r.low <= r.high ==> forall k :: 0 <= k < |s| ==> s[k] == r.low + k
  {
    seq(Span(r) + 1, k requires 0 <= k <= Span(r) => if r.low + k < LIMIT then r.low + k else r.low + k - LIMIT)
  }

  /** Each core listed is the one before it incremented, which wraps. */
  lemma ExpandIncrements(r: Range, k: nat)
    requires 0 < k < |Expand(r)|
    ensures Expand(r)[k] == Next(Expand(r)[k - 1])
  {
  }

  /** The loop stops on equality with high, before stepping past it, so it is safe at the type maximum. */
  method RangeAsSequence(r: Range) returns (s: seq<Core>)
    ensures s == Expand(r)
  {
    s := [];
    var i, e := r.low, r.high;
    while i != e
      invariant |s| <= Span(r)
      invariant s == Expand(r)[..|s|]
      invariant i == Expand(r)[|s|]
      decreases Span(r) - |s|
    {
      s := s + [i];
      i := Next(i);
    }
    assert |s| == Span(r);
    s := s + [r.high];
  }

  /** The ranges one after the other. */
  function Concat(rs: seq<Range>): seq<Core> {
    if rs == [] then [] else Concat(rs[..|rs| - 1]) + Expand(rs[|rs| - 1])
  }

  /** Runs of equal neighbours collapsed to one element. */
  function Dedup(s: seq<Core>): (d: seq<Core>)
    ensures |d| <= |s|
    ensures s != [] ==> d != [] && d[|d| - 1] == s[|s| - 1]
  {
    if |s| <= 1 then s
    else
      var rest, last := s[..|s| - 1], s[|s| - 1];
      assert s == rest + [last];
      if rest[|rest| - 1] == last then Dedup(rest) else Dedup(rest) + [last]
  }

  lemma {:induction false} DedupElements(s: seq<Core>)
    ensures forall x :: x in Dedup(s) <==> x in s
  {
    if |s| > 1 {
      var rest, last := s[..|s| - 1], s[|s| - 1];
      DedupElements(rest);
      DedupOneMore(rest, last);
      assert s == rest + [last];
    }
  }

  lemma DedupOneMore(s: seq<Core>, x: Core)
    requires s != []
    ensures Dedup(s + [x]) == if s[|s| - 1] == x then Dedup(s) else Dedup(s) + [x]
  {
    assert (s + [x])[..|s|] == s;
  }

  /** Removal in place: kept elements move to the front, and the new length is returned. */
  method Unique(a: array<Core>) returns (end: nat)
    modifies a
    ensures end <= a.Length
    ensures a[..end] == Dedup(old(a[..]))
  {
    if a.Length == 0 {
      return 0;
    }
    ghost var was := a[..];
    var dest := 0;
    var i := 1;
    assert a[..1] == was[..1];
    while i != a.Length
      invariant 0 <= dest < i <= a.Length
      invariant a[..dest + 1] == Dedup(was[..i])
      invariant forall k :: i <= k < a.Length ==> a[k] == was[k]
    {
      DedupOneMore(was[..i], was[i]);
      assert was[..i + 1] == was[..i] + [was[i]];
      assert a[dest] == a[..dest + 1][dest] == was[i - 1];
      if a[dest] != a[i] {
        dest := dest + 1;
        a[dest] := a[i];
        assert a[..dest] == Dedup(was[..i]);
        assert a[..dest + 1] == a[..dest] + [was[i]];
      }
      i := i + 1;
    }
    assert was[..i] == was;
    end := dest + 1;
  }

  /** The core list of the application. */
  method AsSequence(rs: seq<Range>) returns (cores: seq<Core>)
    ensures cores == Dedup(Concat(rs))
  {
    var s: seq<Core> := [];
    for i := 0 to |rs|
      invariant s == Concat(rs[..i])
    {
      var partial := RangeAsSequence(rs[i]);
      assert rs[..i + 1][..i] == rs[..i];
      s := s + partial;
    }
    assert rs[..|rs|] == rs;
    var a := new Core[|s|](k requires 0 <= k < |s| => s[k]);
    assert a[..] == s;
    var end := Unique(a);
    cores := a[..end];
  }

  // ---------- what the list contains ----------

  ghost predicate Upright(rs: seq<Range>) {
    forall r :: r in rs ==> r.low <= r.high
  }

  ghost predicate Covers(rs: seq<Range>, x: Core) {
    exists r :: r in rs && r.low <= x <= r.high
  }

  lemma {:induction false} ConcatCovers(rs: seq<Range>, x: Core)
    requires Upright(rs)
    ensures x in Concat(rs) <==> Covers(rs, x)
  {
    if rs != [] {
      var rest, last := rs[..|rs| - 1], rs[|rs| - 1];
      assert rs == rest + [last];
      ConcatCovers(rest, x);
      if last.low <= x <= last.high {
        assert Expand(last)[x - last.low] == x;
      }
    }
  }

  ghost predicate NoEqualNeighbours(s: seq<Core>) {
    forall k :: 0 < k < |s| ==> s[k - 1] != s[k]
  }

  ghost predicate Increasing(s: seq<Core>) {
    forall j, k :: 0 <= j < k < |s| ==> s[j] < s[k]
  }

  ghost predicate NonDecreasing(s: seq<Core>) {
    forall j, k :: 0 <= j < k < |s| ==> s[j] <= s[k]
  }

  ghost predicate Distinct(s: seq<Core>) {
    forall j, k :: 0 <= j < k < |s| ==> s[j] != s[k]
  }

  /** Equal elements stand together: an element seen before equals the one just before it. */
  ghost predicate Grouped(s: seq<Core>) {
    forall i, k :: 0 <= i < k < |s| && s[i] == s[k] ==> s[k - 1] == s[k]
  }

  lemma {:induction false} DedupNeighbours(s: seq<Core>)
    ensures NoEqualNeighbours(Dedup(s))
  {
    if |s| > 1 {
      DedupNeighbours(s[..|s| - 1]);
    }
  }

  /** Position k begins a run of equal elements. */
  ghost predicate RunStart(s: seq<Core>, k: nat)
    requires k < |s|
  {
    k == 0 || s[k - 1] != s[k]
  }

  /** The positions at which runs of equal elements begin. */
  ghost function RunStarts(s: seq<Core>): seq<nat> {
    if s == [] then []
    else if RunStart(s, |s| - 1) then RunStarts(s[..|s| - 1]) + [|s| - 1]
    else RunStarts(s[..|s| - 1])
  }

  /** All of them, in order. */
  lemma {:induction false} RunStartsInOrder(s: seq<Core>)
    ensures forall k: nat :: k in RunStarts(s) <==> k < |s| && RunStart(s, k)
    ensures forall j, k :: 0 <= j < k < |RunStarts(s)| ==> RunStarts(s)[j] < RunStarts(s)[k]
  {
    if s != [] {
      var n := |s| - 1;
      var rest := s[..n];
      RunStartsInOrder(rest);
      forall k: nat ensures k in RunStarts(s) <==> k < |s| && RunStart(s, k) {
        assert k < n ==> (RunStart(rest, k) <==> RunStart(s, k));
        assert k in RunStarts(s) <==> k in RunStarts(rest) || (RunStart(s, n) && k == n);
      }
      forall j | 0 <= j < |RunStarts(rest)| ensures RunStarts(rest)[j] < n {
        assert RunStarts(rest)[j] in RunStarts(rest);
      }
    }
  }

  ghost predicate Keeps(d: seq<Core>, s: seq<Core>, kept: seq<nat>) {
    |d| == |kept| && forall k :: 0 <= k < |d| ==> kept[k] < |s| && d[k] == s[kept[k]]
  }

  lemma RunStartsOneMore(s: seq<Core>, x: Core)
    requires s != []
    ensures RunStarts(s + [x]) == if s[|s| - 1] == x then RunStarts(s) else RunStarts(s) + [|s|]
  {
    var t, n := s + [x], |s|;
    assert t[..n] == s && t[n - 1] == s[n - 1];
    assert RunStarts(t) == if RunStart(t, n) then RunStarts(t[..n]) + [n] else RunStarts(t[..n]);
  }

  lemma KeepsOneMore(s: seq<Core>, x: Core)
    requires s != [] && Keeps(Dedup(s), s, RunStarts(s))
    ensures Keeps(Dedup(s + [x]), s + [x], RunStarts(s + [x]))
  {
    KeepsExtended(Dedup(s), s, RunStarts(s), x);
    DedupOneMore(s, x);
    RunStartsOneMore(s, x);
  }

  lemma KeepsOne(x: Core)
    ensures Keeps(Dedup([x]), [x], RunStarts([x]))
  {
    assert [x][..0] == [];
    assert RunStarts([x]) == [0];
  }

  /** What is kept is the first element of every run, in the order of the input. */
  lemma {:induction false} DedupKeepsRunStarts(s: seq<Core>)
    ensures Keeps(Dedup(s), s, RunStarts(s))
  {
    if |s| == 1 {
      KeepsOne(s[0]);
      assert s == [s[0]];
    } else if s != [] {
      var rest := s[..|s| - 1];
      DedupKeepsRunStarts(rest);
      KeepsOneMore(rest, s[|s| - 1]);
      assert s == rest + [s[|s| - 1]];
    }
  }

  lemma KeepsExtended(d: seq<Core>, s: seq<Core>, kept: seq<nat>, x: Core)
    requires Keeps(d, s, kept)
    ensures Keeps(d, s + [x], kept) && Keeps(d + [x], s + [x], kept + [|s|])
  {
  }

  lemma {:induction false} DedupIncreasing(s: seq<Core>)
    requires NonDecreasing(s)
    ensures Increasing(Dedup(s))
  {
    if |s| > 1 {
      var rest := s[..|s| - 1];
      DedupIncreasing(rest);
      DedupElements(rest);
      forall x | x in Dedup(rest) ensures x <= rest[|rest| - 1] {
      }
    }
  }

  /** Whatever stands between two equal elements equals them. */
  lemma {:induction false} GroupedBetween(s: seq<Core>, i: nat, j: nat, k: nat)
    requires Grouped(s) && i < j < k < |s| && s[i] == s[k]
    ensures s[j] == s[i]
  {
    if j < k - 1 {
      GroupedBetween(s, i, j, k - 1);
    }
  }

  lemma GroupedAppend(s: seq<Core>, x: Core)
    requires s != []
    ensures Grouped(s + [x]) <==> Grouped(s) && (x in s ==> x == s[|s| - 1])
  {
    var t := s + [x];
    assert forall k :: 0 <= k < |s| ==> t[k] == s[k];
    if Grouped(t) {
      forall i, k | 0 <= i < k < |s| && s[i] == s[k] ensures s[k - 1] == s[k] {
        assert t[i] == t[k] && t[k - 1] == s[k - 1];
      }
      if x in s {
        var i :| 0 <= i < |s| && s[i] == x;
        assert t[i] == t[|s|];
      }
    }
  }

  lemma DistinctAppend(s: seq<Core>, x: Core)
    ensures Distinct(s + [x]) <==> Distinct(s) && x !in s
  {
    var t := s + [x];
    assert forall k :: 0 <= k < |s| ==> t[k] == s[k];
    if x in s {
      var k :| 0 <= k < |s| && s[k] == x;
      assert t[k] == t[|s|];
    }
  }

  /** Removing neighbours removes every duplicate exactly when equal elements stood together. */
  lemma {:induction false} DedupDistinct(s: seq<Core>)
    ensures Distinct(Dedup(s)) <==> Grouped(s)
  {
    if |s| > 1 {
      var rest, last := s[..|s| - 1], s[|s| - 1];
      DedupDistinct(rest);
      DedupElements(rest);
      DedupOneMore(rest, last);
      DistinctAppend(Dedup(rest), last);
      GroupedAppend(rest, last);
      assert s == rest + [last];
    }
  }

  // ---------- when the ranges make it so ----------

  /** Each range starts at or after the end of the previous one. */
  ghost predicate InOrder(rs: seq<Range>) {
    forall i :: 0 < i < |rs| ==> rs[i - 1].high <= rs[i].low
  }

  lemma {:induction false} ConcatNonDecreasing(rs: seq<Range>)
    requires Upright(rs) && InOrder(rs)
    ensures NonDecreasing(Concat(rs))
    ensures rs != [] ==> Concat(rs) != [] && Concat(rs)[|Concat(rs)| - 1] == rs[|rs| - 1].high
  {
    if rs != [] {
      var rest := rs[..|rs| - 1];
      ConcatNonDecreasing(rest);
      if rest != [] {
        assert rest[|rest| - 1].high <= rs[|rs| - 1].low;
      }
    }
  }

  /** Two ranges with no core in common, or that only touch, with nothing but that core listed in between. */
  ghost predicate Separate(rs: seq<Range>, i: nat, j: nat)
    requires i < j < |rs|
  {
    || rs[i].high < rs[j].low
    || rs[j].high < rs[i].low
    || (rs[i].high == rs[j].low && forall k :: i < k < j ==> rs[k].low == rs[k].high == rs[i].high)
  }

  ghost predicate AllSeparate(rs: seq<Range>) {
    forall i, j :: 0 <= i < j < |rs| ==> Separate(rs, i, j)
  }

  lemma {:induction false} ConcatLast(rs: seq<Range>)
    requires rs != []
    ensures Concat(rs) != [] && Concat(rs)[|Concat(rs)| - 1] == rs[|rs| - 1].high
  {
  }

  ghost predicate MeetAtEnd(s: seq<Core>, e: seq<Core>)
    requires s != [] && e != []
  {
    forall x :: x in s && x in e ==> x == e[0] == s[|s| - 1]
  }

  lemma MeetAtEndAppend(s: seq<Core>, front: seq<Core>, last: Core)
    requires s != [] && front != [] && last != front[0]
    ensures MeetAtEnd(s, front + [last]) <==> MeetAtEnd(s, front) && last !in s
  {
    var e := front + [last];
    assert forall x :: x in e <==> x in front || x == last;
    assert e[0] == front[0];
  }

  lemma StretchAppend(s: seq<Core>, front: seq<Core>, last: Core)
    requires front != [] && last !in front
    ensures Grouped(s + (front + [last])) <==> Grouped(s + front) && last !in s
  {
    var all := s + front;
    assert s + (front + [last]) == all + [last];
    GroupedAppend(all, last);
    assert last in all <==> last in s;
    assert all[|all| - 1] == front[|front| - 1];
  }

  lemma IncreasingFront(e: seq<Core>)
    requires |e| > 1 && Increasing(e)
    ensures Increasing(e[..|e| - 1]) && e[|e| - 1] !in e[..|e| - 1]
  {
  }

  /** Appending an increasing stretch keeps a sequence grouped if they share at most their meeting point. */
  lemma {:induction false} GroupedStretch(s: seq<Core>, e: seq<Core>)
    requires s != [] && e != [] && Increasing(e)
    ensures Grouped(s + e) <==> Grouped(s) && MeetAtEnd(s, e)
    decreases |e|
  {
    if |e| == 1 {
      assert e == [e[0]];
      GroupedAppend(s, e[0]);
    } else {
      var front, last := e[..|e| - 1], e[|e| - 1];
      IncreasingFront(e);
      GroupedStretch(s, front);
      MeetAtEndAppend(s, front, last);
      StretchAppend(s, front, last);
      assert e == front + [last];
    }
  }

  lemma {:induction false} GroupedExactly(rs: seq<Range>)
    requires Upright(rs)
    ensures Grouped(Concat(rs)) <==> AllSeparate(rs)
  {
    if |rs| == 1 {
      assert rs[..0] == [];
      assert Concat(rs) == Expand(rs[0]);
    } else if |rs| > 1 {
      var n := |rs| - 1;
      var rest, last := rs[..n], rs[n];
      GroupedExactly(rest);
      ConcatLast(rest);
      GroupedStretch(Concat(rest), Expand(last));
      if AllSeparate(rest) {
        SharedExactly(rs);
      }
      assert AllSeparate(rs) ==> AllSeparate(rest) by {
        if AllSeparate(rs) {
          forall i, j | 0 <= i < j < |rest| ensures Separate(rest, i, j) {
            assert Separate(rs, i, j);
          }
        }
      }
      assert AllSeparate(rest) && (forall i :: 0 <= i < n ==> Separate(rs, i, n)) ==> AllSeparate(rs) by {
        if AllSeparate(rest) && forall i :: 0 <= i < n ==> Separate(rs, i, n) {
          forall i, j | 0 <= i < j < |rs| ensures Separate(rs, i, j) {
            assert j < n ==> Separate(rest, i, j);
          }
        }
      }
    }
  }

  /** The last range shares only the meeting point with all the others exactly when it is separate from each. */
  lemma SharedExactly(rs: seq<Range>)
    requires |rs| > 1 && Upright(rs) && AllSeparate(rs[..|rs| - 1])
    ensures var n := |rs| - 1;
            Concat(rs[..n]) != [] && MeetAtEnd(Concat(rs[..n]), Expand(rs[n]))
            <==> forall i :: 0 <= i < n ==> Separate(rs, i, n)
  {
    var n := |rs| - 1;
    var rest, last := rs[..n], rs[n];
    ConcatLast(rest);
    if MeetAtEnd(Concat(rest), Expand(last)) {
      forall i | 0 <= i < n ensures Separate(rs, i, n) {
        if rs[i].high >= last.low && last.high >= rs[i].low {
          var x: Core := if rs[i].low >= last.low then rs[i].low else last.low;
          assert rs[i] in rest && Covers(rest, x);
          ConcatCovers(rest, x);
          assert Expand(last)[x - last.low] == x;
          if i < n - 1 {
            assert Separate(rest, i, n - 1);
          } else {
            assert rs[i].high == last.low;
          }
        }
      }
    }
    if forall i :: 0 <= i < n ==> Separate(rs, i, n) {
      forall x | x in Concat(rest) && x in Expand(last) ensures x == last.low == rs[n - 1].high {
        ConcatCovers(rest, x);
        var r :| r in rest && r.low <= x <= r.high;
        var i :| 0 <= i < n && rest[i] == r;
        assert Separate(rs, i, n);
      }
    }
  }

  // ---------- the core list ----------

  /** For upright ranges the list holds exactly the cores of their union, and no two equal neighbours. */
  lemma CoreListContents(rs: seq<Range>, x: Core)
    requires Upright(rs)
    ensures x in Dedup(Concat(rs)) <==> Covers(rs, x)
    ensures NoEqualNeighbours(Dedup(Concat(rs)))
  {
    ConcatCovers(rs, x);
    DedupElements(Concat(rs));
    DedupNeighbours(Concat(rs));
  }

  lemma CoreListIncreasing(rs: seq<Range>)
    requires Upright(rs) && InOrder(rs)
    ensures Increasing(Dedup(Concat(rs)))
  {
    ConcatNonDecreasing(rs);
    DedupIncreasing(Concat(rs));
  }

  /** Every core is listed once exactly when any two ranges are separate. */
  lemma CoreListDistinct(rs: seq<Range>)
    requires Upright(rs)
    ensures Distinct(Dedup(Concat(rs))) <==> AllSeparate(rs)
  {
    DedupDistinct(Concat(rs));
    GroupedExactly(rs);
  }

  /** The ranges 0-1,0 list a core twice. */
  lemma DuplicateCoreExample()
    ensures !Distinct(Dedup(Concat([Range(0, 1), Range(0, 0)])))
  {
    var rs := [Range(0, 1), Range(0, 0)];
    assert !Separate(rs, 0, 1);
    CoreListDistinct(rs);
  }
}
