/** Cleaning of user text: control characters, tags, whitespace and length.  Text is UTF-16 code units. */
module Sanitize {
  import opened Wrappers

  type Unit = u: int | 0 <= u < 0x10000
  type Text = seq<Unit>

  const LT: Unit := 0x3C
  const GT: Unit := 0x3E
  const SPACE: Unit := 0x20

  // ---- the passes -----------------------------------------------------------

  predicate IsControl(u: Unit) {
    u <= 0x08 || u == 0x0B || u == 0x0C || 0x0E <= u <= 0x1F || u == 0x7F
  }

  function StripControlCharacters(s: Text): Text {
    if s == [] then []
    else (if IsControl(s[0]) then [] else [s[0]]) + StripControlCharacters(s[1..])
  }

  /** What follows the first `>`. */
  function AfterGt(s: Text): (rest: Text)
    requires GT in s
    ensures |rest| < |s|
  {
    if s[0] == GT then s[1..] else AfterGt(s[1..])
  }

  /** `replace(/<[^>]*>/g, "")`: from each `<`, left to right, up to the next `>` if there is one. */
  function StripHtmlTags(s: Text): Text
    decreases |s|
  {
    if s == [] then []
    else if s[0] == LT && GT in s[1..] then StripHtmlTags(AfterGt(s[1..]))
    else [s[0]] + StripHtmlTags(s[1..])
  }

  /** White space and line terminators: both `\s` and what `trim` removes. */
  predicate IsSpace(u: Unit) {
    0x09 <= u <= 0x0D || u == SPACE || u == 0xA0 || u == 0x1680 || 0x2000 <= u <= 0x200A
    || u == 0x2028 || u == 0x2029 || u == 0x202F || u == 0x205F || u == 0x3000 || u == 0xFEFF
  }

  function TrimStart(s: Text): (r: Text)
    ensures |r| <= |s|
  {
    if s != [] && IsSpace(s[0]) then TrimStart(s[1..]) else s
  }

  function TrimEnd(s: Text): Text {
    if s != [] && IsSpace(s[|s| - 1]) then TrimEnd(s[..|s| - 1]) else s
  }

  /** `replace(/\s+/g, " ")`. */
  function CollapseWhitespace(s: Text): Text
    decreases |s|
  {
    if s == [] then []
    else if IsSpace(s[0]) then [SPACE] + CollapseWhitespace(TrimStart(s[1..]))
    else [s[0]] + CollapseWhitespace(s[1..])
  }

  /** `slice(0, end)`: a negative end counts from the back. */
  function SliceTo(s: Text, end: int): Text {
    if end >= |s| then s else if end >= 0 then s[..end] else if |s| + end > 0 then s[..|s| + end] else []
  }

  datatype Options = Options(trim: bool, stripHtml: bool, collapseWhitespace: bool, maxLength: Option<int>)

  /** All passes but the length cap. */
  function Normalized(input: Text, o: Options): Text {
    var stripped := StripControlCharacters(input);
    var untagged := if o.stripHtml then StripHtmlTags(stripped) else stripped;
    var collapsed := if o.collapseWhitespace then CollapseWhitespace(untagged) else untagged;
    if o.trim then TrimEnd(TrimStart(collapsed)) else collapsed
  }

  /** The cap applies. */
  predicate Cuts(input: Text, o: Options) {
    o.maxLength.Some? && |Normalized(input, o)| > o.maxLength.value
  }

  function Sanitized(input: Text, o: Options): Text {
    if Cuts(input, o) then SliceTo(Normalized(input, o), o.maxLength.value) else Normalized(input, o)
  }

  // ---- normal form ----------------------------------------------------------

  predicate NoControl(s: Text) { forall i :: 0 <= i < |s| ==> !IsControl(s[i]) }

  /** No `<` with a `>` anywhere after it. */
  predicate NoTag(s: Text) { forall i, j :: 0 <= i < j < |s| ==> !(s[i] == LT && s[j] == GT) }

  /** White space is single plain spaces. */
  predicate SingleSpaces(s: Text) {
    forall i :: 0 <= i < |s| && IsSpace(s[i]) ==> s[i] == SPACE && (i + 1 < |s| ==> !IsSpace(s[i + 1]))
  }

  predicate Trimmed(s: Text) { s != [] ==> !IsSpace(s[0]) && !IsSpace(s[|s| - 1]) }

  predicate InNormalForm(s: Text, o: Options) {
    && NoControl(s)
    && (o.stripHtml ==> NoTag(s))
    && (o.collapseWhitespace ==> SingleSpaces(s))
    && (o.trim ==> Trimmed(s))
  }

  /** `a` is `b` with some units left out. */
  predicate Subsequence(a: Text, b: Text)
    decreases |b|
  {
    a == [] || (b != [] && if a[0] == b[0] then Subsequence(a[1..], b[1..]) else Subsequence(a, b[1..]))
  }

  lemma {:induction false} SubsequenceWithoutHead(a: Text, b: Text)
    requires a != [] && Subsequence(a, b)
    ensures Subsequence(a[1..], b)
    decreases |b|
  {
    if a[0] == b[0] {
      SubsequenceOfTail(a[1..], b);
    } else {
      SubsequenceWithoutHead(a, b[1..]);
      SubsequenceOfTail(a[1..], b);
    }
  }

  lemma {:induction false} SubsequenceOfTail(a: Text, b: Text)
    requires b != [] && Subsequence(a, b[1..])
    ensures Subsequence(a, b)
    decreases |b|, 0
  {
    if a != [] && a[0] == b[0] {
      SubsequenceWithoutHead(a, b[1..]);
    }
  }

  lemma {:induction false} SubsequenceTransitive(a: Text, b: Text, c: Text)
    requires Subsequence(a, b) && Subsequence(b, c)
    ensures Subsequence(a, c)
    decreases |c|
  {
    if a != [] {
      if b[0] != c[0] {
        SubsequenceTransitive(a, b, c[1..]);
        SubsequenceOfTail(a, c);
      } else if a[0] == b[0] {
        SubsequenceTransitive(a[1..], b[1..], c[1..]);
      } else {
        SubsequenceTransitive(a, b[1..], c[1..]);
      }
    }
  }

  lemma {:induction false} SliceIsSubsequence(s: Text, from: nat, to: nat)
    requires from <= to <= |s|
    ensures Subsequence(s[from..to], s)
    decreases |s|
  {
    if s != [] {
      if from > 0 {
        var t := s[1..];
        SliceIsSubsequence(t, from - 1, to - 1);
        assert forall i :: 0 <= i < to - from ==> s[from..to][i] == t[from - 1..to - 1][i];
        assert s[from..to] == t[from - 1..to - 1];
        SubsequenceOfTail(s[from..to], s);
      } else if to > 0 {
        assert s[0..to][1..] == s[1..][0..to - 1];
        SliceIsSubsequence(s[1..], 0, to - 1);
      }
    }
  }

  lemma {:induction false} StripControlFacts(s: Text)
    ensures NoControl(StripControlCharacters(s))
    ensures NoControl(s) ==> StripControlCharacters(s) == s
    ensures Subsequence(StripControlCharacters(s), s)
  {
    if s != [] {
      var rest := StripControlCharacters(s[1..]);
      StripControlFacts(s[1..]);
      SubsequenceOfTail(rest, s);
      assert [s[0]] + s[1..] == s;
      if IsControl(s[0]) {
        assert StripControlCharacters(s) == rest;
      } else {
        assert StripControlCharacters(s)[1..] == rest;
      }
    }
  }

  lemma {:induction false} AfterGtIsSuffix(s: Text) returns (k: nat)
    requires GT in s
    ensures 1 <= k <= |s| && AfterGt(s) == s[k..]
    ensures s[k - 1] == GT && GT !in s[..k - 1]
  {
    if s[0] == GT {
      k := 1;
    } else {
      k := AfterGtIsSuffix(s[1..]);
      assert s[1..][k..] == s[k + 1..];
      assert s[..k] == [s[0]] + s[1..][..k - 1];
      k := k + 1;
    }
  }

  lemma {:induction false} StripTagsSubsequence(s: Text)
    ensures Subsequence(StripHtmlTags(s), s)
    ensures forall u :: u in StripHtmlTags(s) ==> u in s
    decreases |s|
  {
    if s == [] {
    } else if s[0] == LT && GT in s[1..] {
      var rest := AfterGt(s[1..]);
      var k := AfterGtIsSuffix(s[1..]);
      assert rest == s[k + 1..|s|];
      SliceIsSubsequence(s, k + 1, |s|);
      StripTagsSubsequence(rest);
      SubsequenceTransitive(StripHtmlTags(rest), rest, s);
    } else {
      StripTagsSubsequence(s[1..]);
    }
  }

  lemma {:induction false} StripTagsFacts(s: Text)
    ensures NoTag(StripHtmlTags(s))
    ensures NoTag(s) ==> StripHtmlTags(s) == s
    decreases |s|
  {
    if s == [] {
    } else if s[0] == LT && GT in s[1..] {
      StripTagsFacts(AfterGt(s[1..]));
      var j :| 0 <= j < |s[1..]| && s[1..][j] == GT;
      assert s[0] == LT && s[j + 1] == GT;
    } else {
      StripTagsFacts(s[1..]);
      StripTagsSubsequence(s[1..]);
      NoTagCons(s[0], s[1..]);
      NoTagCons(s[0], StripHtmlTags(s[1..]));
      assert [s[0]] + s[1..] == s;
    }
  }

  lemma NoTagCons(u: Unit, s: Text)
    ensures NoTag([u] + s) <==> NoTag(s) && !(u == LT && GT in s)
  {
    var all := [u] + s;
    assert forall i :: 0 <= i < |s| ==> all[i + 1] == s[i];
    if u == LT && GT in s {
      var j :| 0 <= j < |s| && s[j] == GT;
      assert all[0] == LT && all[j + 1] == GT;
    } else if NoTag(all) {
      forall i, j | 0 <= i < j < |s| ensures !(s[i] == LT && s[j] == GT) {
        assert all[i + 1] == s[i] && all[j + 1] == s[j];
      }
    }
  }

  /** Parts of a clean text are clean. */
  lemma SliceKeeps(s: Text, from: nat, to: nat)
    requires from <= to <= |s|
    ensures NoControl(s) ==> NoControl(s[from..to])
    ensures NoTag(s) ==> NoTag(s[from..to])
    ensures SingleSpaces(s) ==> SingleSpaces(s[from..to])
  {
  }

  lemma {:induction false} TrimStartFacts(s: Text) returns (k: nat)
    ensures k <= |s| && TrimStart(s) == s[k..|s|]
    ensures forall i :: 0 <= i < k ==> IsSpace(s[i])
    ensures TrimStart(s) != [] ==> !IsSpace(TrimStart(s)[0])
  {
    if s != [] && IsSpace(s[0]) {
      k := TrimStartFacts(s[1..]);
      assert s[1..][k..] == s[k + 1..];
      k := k + 1;
    } else {
      k := 0;
    }
  }

  lemma {:induction false} TrimEndFacts(s: Text) returns (k: nat)
    ensures k <= |s| && TrimEnd(s) == s[0..k]
    ensures forall i :: k <= i < |s| ==> IsSpace(s[i])
    ensures TrimEnd(s) != [] ==> !IsSpace(TrimEnd(s)[|TrimEnd(s)| - 1])
    ensures TrimEnd(s) == s <==> s == [] || !IsSpace(s[|s| - 1])
  {
    if s != [] && IsSpace(s[|s| - 1]) {
      k := TrimEndFacts(s[..|s| - 1]);
      assert s[..|s| - 1][..k] == s[..k];
    } else {
      k := |s|;
    }
  }

  lemma {:induction false} CollapseMembers(s: Text)
    ensures |CollapseWhitespace(s)| <= |s|
    ensures forall u :: u in CollapseWhitespace(s) && u != SPACE ==> u in s
    decreases |s|
  {
    if s != [] && IsSpace(s[0]) {
      var k := TrimStartFacts(s[1..]);
      CollapseMembers(TrimStart(s[1..]));
    } else if s != [] {
      CollapseMembers(s[1..]);
    }
  }

  lemma {:induction false} CollapseSingles(s: Text)
    ensures SingleSpaces(CollapseWhitespace(s))
    ensures CollapseWhitespace(s) != [] ==> s != [] && (IsSpace(CollapseWhitespace(s)[0]) <==> IsSpace(s[0]))
    decreases |s|
  {
    if s != [] && IsSpace(s[0]) {
      var k := TrimStartFacts(s[1..]);
      CollapseSingles(TrimStart(s[1..]));
    } else if s != [] {
      CollapseSingles(s[1..]);
    }
  }

  lemma {:induction false} CollapseKeepsSingles(s: Text)
    requires SingleSpaces(s)
    ensures CollapseWhitespace(s) == s
    decreases |s|
  {
    if s != [] {
      SliceKeeps(s, 1, |s|);
      assert s[1..] == s[1..|s|];
      assert [s[0]] + s[1..] == s;
      if IsSpace(s[0]) {
        assert TrimStart(s[1..]) == s[1..];
      }
      CollapseKeepsSingles(s[1..]);
    }
  }

  lemma {:induction false} CollapseKeepsNoTag(s: Text)
    requires NoTag(s)
    ensures NoTag(CollapseWhitespace(s))
    decreases |s|
  {
    if s != [] {
      SliceKeeps(s, 1, |s|);
      assert s[1..] == s[1..|s|];
      assert [s[0]] + s[1..] == s;
      NoTagCons(s[0], s[1..]);
      if IsSpace(s[0]) {
        var k := TrimStartFacts(s[1..]);
        SliceKeeps(s[1..], k, |s| - 1);
        CollapseKeepsNoTag(TrimStart(s[1..]));
        NoTagCons(SPACE, CollapseWhitespace(TrimStart(s[1..])));
      } else {
        CollapseKeepsNoTag(s[1..]);
        CollapseMembers(s[1..]);
        NoTagCons(s[0], CollapseWhitespace(s[1..]));
      }
    }
  }

  lemma CollapseKeepsNoControl(s: Text)
    requires NoControl(s)
    ensures NoControl(CollapseWhitespace(s))
  {
    CollapseMembers(s);
    forall i | 0 <= i < |CollapseWhitespace(s)| ensures !IsControl(CollapseWhitespace(s)[i]) {
      assert CollapseWhitespace(s)[i] in CollapseWhitespace(s);
    }
  }

  /** The passes, in their order, reach the normal form; none undoes what an earlier one did. */
  lemma PassesReachNormalForm(input: Text, o: Options)
    ensures InNormalForm(Normalized(input, o), o)
    ensures |Normalized(input, o)| <= |input|
    ensures !o.collapseWhitespace ==> Subsequence(Normalized(input, o), input)
  {
    hide IsControl, IsSpace, StripControlCharacters, StripHtmlTags, CollapseWhitespace, TrimStart, TrimEnd, Subsequence;
    var stripped := StripControlCharacters(input);
    StripControlFacts(input);
    SubsequenceIsShorter(stripped, input);
    var untagged := if o.stripHtml then StripHtmlTags(stripped) else stripped;
    StripTagsFacts(stripped);
    StripTagsSubsequence(stripped);
    SubsequenceTransitive(StripHtmlTags(stripped), stripped, input);
    SubsequenceIsShorter(untagged, input);
    assert NoControl(untagged) by {
      forall i | 0 <= i < |untagged| ensures !IsControl(untagged[i]) {
        assert untagged[i] in untagged && untagged[i] in stripped;
      }
    }
    var collapsed := if o.collapseWhitespace then CollapseWhitespace(untagged) else untagged;
    CollapseMembers(untagged);
    CollapseSingles(untagged);
    CollapseKeepsNoControl(untagged);
    if o.stripHtml {
      CollapseKeepsNoTag(untagged);
    }
    TrimKeeps(collapsed);
    SubsequenceTransitive2(TrimEnd(TrimStart(collapsed)), collapsed, input);
  }

  lemma SubsequenceTransitive2(a: Text, b: Text, c: Text)
    requires Subsequence(a, b)
    ensures Subsequence(b, c) ==> Subsequence(a, c)
  {
    if Subsequence(b, c) {
      SubsequenceTransitive(a, b, c);
    }
  }

  lemma {:induction false} SubsequenceIsShorter(a: Text, b: Text)
    requires Subsequence(a, b)
    ensures |a| <= |b|
    decreases |b|
  {
    if a != [] {
      if a[0] == b[0] {
        SubsequenceIsShorter(a[1..], b[1..]);
      } else {
        SubsequenceIsShorter(a, b[1..]);
      }
    }
  }

  lemma TrimKeeps(s: Text)
    ensures var t := TrimEnd(TrimStart(s));
            && Trimmed(t) && |t| <= |s| && Subsequence(t, s)
            && (NoControl(s) ==> NoControl(t)) && (NoTag(s) ==> NoTag(t)) && (SingleSpaces(s) ==> SingleSpaces(t))
  {
    hide IsControl, IsSpace, TrimStart, TrimEnd, Subsequence;
    var k := TrimStartFacts(s);
    var m := TrimEndFacts(TrimStart(s));
    assert s[k..|s|][0..m] == s[k..k + m];
    SliceKeeps(s, k, k + m);
    SliceIsSubsequence(s, k, k + m);
  }

  // ---- nothing else is lost -------------------------------------------------

  /** The units whose flag is set, in their order. */
  function Pick(s: Text, keep: seq<bool>): Text
    requires |keep| == |s|
  {
    if s == [] then [] else (if keep[0] then [s[0]] else []) + Pick(s[1..], keep[1..])
  }

  /** Tab, line feed, carriage return, and all from the space on but DEL. */
  predicate Printable(u: Unit) { u == 9 || u == 10 || u == 13 || (u >= 32 && u != 127) }

  /** WhiteSpace and LineTerminator of sections 12.2 and 12.3 of ECMA-262. */
  const WHITE_SPACE: set<int> := {
    0x0009, 0x000A, 0x000B, 0x000C, 0x000D, 0x0020, 0x00A0, 0x1680, 0x2000, 0x2001, 0x2002, 0x2003, 0x2004,
    0x2005, 0x2006, 0x2007, 0x2008, 0x2009, 0x200A, 0x2028, 0x2029, 0x202F, 0x205F, 0x3000, 0xFEFF
  }

  lemma UnitClasses(u: Unit)
    ensures IsControl(u) <==> !Printable(u)
    ensures IsSpace(u) <==> u in WHITE_SPACE
  {
  }

  /** Position `i` lies in a tag: some `<` at or before it is followed by a `>`, the first one after it at `i` or later. */
  predicate InTag(s: Text, i: int)
    requires 0 <= i < |s|
  {
    GT in s[i..] && exists a :: 0 <= a <= i && s[a] == LT && GT !in s[a..i]
  }

  /** The first unit of a run of white space, or no white space at all. */
  predicate StartsRun(s: Text, i: int)
    requires 0 <= i < |s|
  {
    !(s[i] in WHITE_SPACE && i > 0 && s[i - 1] in WHITE_SPACE)
  }

  function Printables(s: Text): seq<bool> { seq(|s|, i requires 0 <= i < |s| => Printable(s[i])) }

  function Untagged(s: Text): seq<bool> { seq(|s|, i requires 0 <= i < |s| => !InTag(s, i)) }

  function RunStarts(s: Text): seq<bool> { seq(|s|, i requires 0 <= i < |s| => StartsRun(s, i)) }

  /** Every white space as a plain space. */
  function PlainSpaces(s: Text): Text {
    seq(|s|, i requires 0 <= i < |s| => if s[i] in WHITE_SPACE then SPACE else s[i])
  }

  lemma {:induction false} PickSplits(s: Text, keep: seq<bool>, n: nat)
    requires |keep| == |s| && n <= |s|
    ensures Pick(s, keep) == Pick(s[..n], keep[..n]) + Pick(s[n..], keep[n..])
  {
    if n > 0 {
      PickSplits(s[1..], keep[1..], n - 1);
      assert s[..n][1..] == s[1..][..n - 1] && keep[..n][1..] == keep[1..][..n - 1];
      assert s[1..][n - 1..] == s[n..] && keep[1..][n - 1..] == keep[n..];
    } else {
      assert s[0..] == s && keep[0..] == keep;
    }
  }

  lemma {:induction false} PickNothing(s: Text, keep: seq<bool>)
    requires |keep| == |s| && forall i :: 0 <= i < |s| ==> !keep[i]
    ensures Pick(s, keep) == []
  {
    if s != [] {
      PickNothing(s[1..], keep[1..]);
    }
  }

  /** Dropping the control characters leaves exactly the others. */
  lemma {:induction false} ControlsDropped(s: Text)
    ensures StripControlCharacters(s) == Pick(s, Printables(s))
  {
    hide IsControl, Printable;
    if s != [] {
      UnitClasses(s[0]);
      ControlsDropped(s[1..]);
      assert Printables(s)[1..] == Printables(s[1..]);
    }
  }

  /** Past the end of a tag, what lies in a tag is decided by the rest alone. */
  lemma TagsAfter(s: Text, n: nat, i: int)
    requires 1 <= n <= i < |s|
    requires s[n - 1] == GT || (n == 1 && (s[0] != LT || GT !in s[1..]))
    ensures InTag(s, i) <==> InTag(s[n..], i - n)
  {
    var rest := s[n..];
    assert rest[i - n..] == s[i..];
    if InTag(s, i) {
      var a :| 0 <= a <= i && s[a] == LT && GT !in s[a..i];
      assert a >= n;
      assert rest[a - n..i - n] == s[a..i] && rest[a - n] == LT;
    }
    if InTag(rest, i - n) {
      var a :| 0 <= a <= i - n && rest[a] == LT && GT !in rest[a..i - n];
      assert s[a + n..i] == rest[a..i - n] && s[a + n] == LT;
    }
  }

  lemma UntaggedAfter(s: Text, n: nat)
    requires 1 <= n <= |s|
    requires s[n - 1] == GT || (n == 1 && (s[0] != LT || GT !in s[1..]))
    ensures Untagged(s)[n..] == Untagged(s[n..])
  {
    hide InTag;
    forall i | n <= i < |s| ensures Untagged(s)[i] == Untagged(s[n..])[i - n] {
      TagsAfter(s, n, i);
    }
  }

  /** Removing the tags leaves exactly what lies outside them. */
  lemma {:induction false} TagsDropped(s: Text)
    ensures StripHtmlTags(s) == Pick(s, Untagged(s))
    decreases |s|
  {
    if s == [] {
    } else if s[0] == LT && GT in s[1..] {
      var k := AfterGtIsSuffix(s[1..]);
      var n := k + 1;
      assert AfterGt(s[1..]) == s[n..];
      TagsDropped(s[n..]);
      TagIsInTag(s, k);
      UntaggedAfter(s, n);
      PickSplits(s, Untagged(s), n);
      PickNothing(s[..n], Untagged(s)[..n]);
    } else {
      TagsDropped(s[1..]);
      UntaggedAfter(s, 1);
      assert !InTag(s, 0) by { assert s[0..0] == [] && s[0..] == [s[0]] + s[1..]; }
    }
  }

  lemma TagIsInTag(s: Text, k: nat)
    requires 1 <= k < |s| && s[0] == LT && s[k] == GT && GT !in s[1..][..k - 1]
    ensures forall i :: 0 <= i <= k ==> InTag(s, i)
  {
    forall i | 0 <= i <= k ensures InTag(s, i) {
      assert s[i..][k - i] == GT;
      assert forall j :: 1 <= j < k ==> s[j] == s[1..][..k - 1][j - 1];
      assert s[0] == LT && GT !in s[0..i];
    }
  }

  /** Collapsing leaves one plain space for each run of white space, and everything else. */
  lemma {:induction false} RunsCollapsed(s: Text)
    ensures CollapseWhitespace(s) == Pick(PlainSpaces(s), RunStarts(s))
    decreases |s|
  {
    hide IsSpace;
    if s != [] {
      UnitClasses(s[0]);
      var n := 1;
      if IsSpace(s[0]) {
        var k := TrimStartFacts(s[1..]);
        n := k + 1;
        assert TrimStart(s[1..]) == s[n..];
        forall i | 1 <= i < n ensures !RunStarts(s)[i] {
          assert s[i] == s[1..][i - 1] && (i == 1 || s[i - 1] == s[1..][i - 2]);
          UnitClasses(s[i]);
          UnitClasses(s[i - 1]);
        }
        PickNothing(PlainSpaces(s)[1..n], RunStarts(s)[1..n]);
      }
      if n < |s| {
        UnitClasses(s[n]);
      }
      RunsCollapsed(s[n..]);
      RunStartsAfter(s, n);
      PickSplits(PlainSpaces(s), RunStarts(s), n);
      PlainSpacesAfter(s, n);
      PickFirst(PlainSpaces(s)[..n], RunStarts(s)[..n]);
    }
  }

  lemma PickFirst(s: Text, keep: seq<bool>)
    requires |keep| == |s| >= 1 && keep[0]
    requires forall i :: 1 <= i < |s| ==> !keep[i]
    ensures Pick(s, keep) == [s[0]]
  {
    PickNothing(s[1..], keep[1..]);
  }

  lemma PlainSpacesAfter(s: Text, n: nat)
    requires n <= |s|
    ensures PlainSpaces(s)[n..] == PlainSpaces(s[n..])
  {
  }

  lemma RunStartsAfter(s: Text, n: nat)
    requires 1 <= n <= |s|
    requires n < |s| ==> s[n] !in WHITE_SPACE || s[n - 1] !in WHITE_SPACE
    ensures RunStarts(s)[n..] == RunStarts(s[n..])
  {
  }

  /** `part` is `s` without the white space at its ends, and ends in none. */
  ghost predicate TrimmedPart(part: Text, s: Text) {
    exists i, j :: 0 <= i <= j <= |s| && part == s[i..j] && IsTrimmedAt(s, i, j)
  }

  predicate IsTrimmedAt(s: Text, i: int, j: int)
    requires 0 <= i <= j <= |s|
  {
    && (forall k :: 0 <= k < |s| && !(i <= k < j) ==> s[k] in WHITE_SPACE)
    && (i < j ==> s[i] !in WHITE_SPACE && s[j - 1] !in WHITE_SPACE)
  }

  lemma EndsTrimmed(s: Text)
    ensures TrimmedPart(TrimEnd(TrimStart(s)), s)
  {
    hide IsSpace, TrimStart, TrimEnd;
    var k := TrimStartFacts(s);
    var m := TrimEndFacts(TrimStart(s));
    assert s[k..|s|][0..m] == s[k..k + m];
    forall i | 0 <= i < |s| && !(k <= i < k + m) ensures s[i] in WHITE_SPACE {
      UnitClasses(s[i]);
      assert i >= k ==> s[k..|s|][i - k] == s[i];
    }
    if m > 0 {
      UnitClasses(s[k]);
      UnitClasses(s[k + m - 1]);
    }
    assert IsTrimmedAt(s, k, k + m);
  }

  /** What cleaning leaves of the input, pass by pass, by position: all that is not named is kept. */
  ghost predicate IsCleaned(value: Text, input: Text, o: Options) {
    var printed := Pick(input, Printables(input));
    var untagged := if o.stripHtml then Pick(printed, Untagged(printed)) else printed;
    var collapsed := if o.collapseWhitespace then Pick(PlainSpaces(untagged), RunStarts(untagged)) else untagged;
    exists whole ::
      && (if o.trim then TrimmedPart(whole, collapsed) else whole == collapsed)
      && IsCapped(value, whole, o.maxLength)
  }

  /** The first `cap` units; a negative cap leaves out as many at the end. */
  predicate IsCapped(value: Text, whole: Text, cap: Option<int>) {
    && value <= whole
    && |value| == match cap
                  case None => |whole|
                  case Some(n) => if |whole| <= n then |whole| else if n >= 0 then n
                                  else if |whole| + n > 0 then |whole| + n else 0
  }

  lemma SanitizedIsCleaned(input: Text, o: Options)
    ensures IsCleaned(Sanitized(input, o), input, o)
  {
    hide Pick, StripControlCharacters, StripHtmlTags, CollapseWhitespace, TrimStart, TrimEnd, TrimmedPart;
    ControlsDropped(input);
    var stripped := StripControlCharacters(input);
    TagsDropped(stripped);
    var untagged := if o.stripHtml then StripHtmlTags(stripped) else stripped;
    RunsCollapsed(untagged);
    var collapsed := if o.collapseWhitespace then CollapseWhitespace(untagged) else untagged;
    EndsTrimmed(collapsed);
    assert IsCapped(Sanitized(input, o), Normalized(input, o), o.maxLength);
  }

  /**
   * What a caller gets: within the length cap, no longer than the input, and in normal form
   * unless the cap cut it; then still without control characters, tags and runs of spaces.
   */
  method SanitizeText(input: Text, options: Options) returns (value: Text)
    ensures value == Sanitized(input, options)
    ensures IsCleaned(value, input, options)
    ensures !Cuts(input, options) ==> InNormalForm(value, options)
    ensures NoControl(value)
    ensures options.stripHtml ==> NoTag(value)
    ensures options.collapseWhitespace ==> SingleSpaces(value)
    ensures options.trim && value != [] ==> !IsSpace(value[0])
    ensures |value| <= |input|
    ensures options.maxLength.Some? && options.maxLength.value >= 0 ==> |value| <= options.maxLength.value
    ensures !options.collapseWhitespace ==> Subsequence(value, input)
  {
    hide IsControl, IsSpace, Subsequence, IsCleaned;
    SanitizedIsCleaned(input, options);
    value := StripControlCharacters(input);
    if options.stripHtml {
      value := StripHtmlTags(value);
    }
    if options.collapseWhitespace {
      value := CollapseWhitespace(value);
    }
    if options.trim {
      value := TrimEnd(TrimStart(value));
    }
    PassesReachNormalForm(input, options);
    if options.maxLength.Some? && |value| > options.maxLength.value {
      ghost var whole := value;
      value := SliceTo(value, options.maxLength.value);
      assert value == whole[0..|value|];
      SliceKeeps(whole, 0, |value|);
      SliceIsSubsequence(whole, 0, |value|);
      SubsequenceTransitive2(value, whole, input);
    }
  }

  /** A text in normal form passes through unchanged. */
  lemma NormalFormIsFixed(s: Text, o: Options)
    requires InNormalForm(s, o)
    ensures Normalized(s, o) == s
  {
    hide IsControl, StripControlCharacters, StripHtmlTags, CollapseWhitespace;
    StripControlFacts(s);
    StripTagsFacts(s);
    if o.collapseWhitespace {
      CollapseKeepsSingles(s);
    }
  }

  /** Sanitizing again changes nothing, in these cases and no others. */
  predicate Settles(input: Text, o: Options) {
    var v := Normalized(input, o);
    !Cuts(input, o)
    || (o.maxLength.value >= 0 && (o.trim && o.maxLength.value > 0 ==> !IsSpace(v[o.maxLength.value - 1])))
    || |v| + o.maxLength.value <= 0
  }

  /**
   * Sanitizing is idempotent exactly when the cap does not cut, or cuts where no white space
   * is left at the end for the next trim, or (a negative cap) leaves nothing.
   */
  lemma IdempotentExactlyWhenItSettles(input: Text, o: Options)
    ensures Sanitized(Sanitized(input, o), o) == Sanitized(input, o) <==> Settles(input, o)
  {
    hide IsControl, IsSpace, StripControlCharacters, StripHtmlTags, CollapseWhitespace, TrimStart, TrimEnd, Normalized;
    var v := Normalized(input, o);
    PassesReachNormalForm(input, o);
    if !Cuts(input, o) {
      NormalFormIsFixed(v, o);
    } else {
      var out := Sanitized(input, o);
      var m := |out|;
      assert out == v[0..m];
      PrefixNormalizes(v, o, m);
      var k := TrimEndFacts(out);
    }
  }

  /** All that a second pass can do to a shortened normal form is trim its end. */
  lemma PrefixNormalizes(v: Text, o: Options, m: nat)
    requires InNormalForm(v, o) && m <= |v|
    ensures Normalized(v[0..m], o) == if o.trim then TrimEnd(v[0..m]) else v[0..m]
  {
    hide IsControl, StripControlCharacters, StripHtmlTags, CollapseWhitespace, TrimEnd;
    var s := v[0..m];
    SliceKeeps(v, 0, m);
    StripControlFacts(s);
    StripTagsFacts(s);
    if o.collapseWhitespace {
      CollapseKeepsSingles(s);
    }
    if o.trim && s != [] {
      assert s[0] == v[0];
    }
  }

  const QUESTION_OPTIONS := Options(true, true, false, Some(2000))

  /** For every question the request schema admits, the cap never cuts and the result is final. */
  lemma QuestionsAreCleanedOnce(question: Text)
    requires 1 <= |question| <= 2000
    ensures var clean := Sanitized(question, QUESTION_OPTIONS);
            && clean == Normalized(question, QUESTION_OPTIONS)
            && NoControl(clean) && NoTag(clean) && Trimmed(clean) && Subsequence(clean, question)
            && var printed := Pick(question, Printables(question));
            && TrimmedPart(clean, Pick(printed, Untagged(printed)))
            && Sanitized(clean, QUESTION_OPTIONS) == clean
  {
    hide IsControl, IsSpace, Pick, StripControlCharacters, StripHtmlTags, TrimStart, TrimEnd, TrimmedPart, Subsequence;
    PassesReachNormalForm(question, QUESTION_OPTIONS);
    IdempotentExactlyWhenItSettles(question, QUESTION_OPTIONS);
    ControlsDropped(question);
    TagsDropped(StripControlCharacters(question));
    EndsTrimmed(StripHtmlTags(StripControlCharacters(question)));
  }
}
