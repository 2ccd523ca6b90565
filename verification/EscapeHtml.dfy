/** HTML escaping by five whole-string replacements, and what they amount to. */
module EscapeHtml {
  import opened Sanitize

  const AMP: Unit := 0x26
  const QUOT: Unit := 0x22
  const APOS: Unit := 0x27

  const AMP_TEXT: Text := [0x26, 0x61, 0x6D, 0x70, 0x3B]         // &amp;
  const LT_TEXT: Text := [0x26, 0x6C, 0x74, 0x3B]                // &lt;
  const GT_TEXT: Text := [0x26, 0x67, 0x74, 0x3B]                // &gt;
  const QUOT_TEXT: Text := [0x26, 0x71, 0x75, 0x6F, 0x74, 0x3B]  // &quot;
  const APOS_TEXT: Text := [0x26, 0x23, 0x78, 0x32, 0x37, 0x3B]  // &#x27;

  function Codes(s: string): seq<int> { seq(|s|, i requires 0 <= i < |s| => s[i] as int) }

  /** The characters and their entities, spelled out. */
  lemma EntitiesSpelledOut()
    ensures [AMP as int, LT, GT, QUOT, APOS] == Codes("&<>\"'")
    ensures AMP_TEXT == Codes("&amp;") && LT_TEXT == Codes("&lt;") && GT_TEXT == Codes("&gt;")
    ensures QUOT_TEXT == Codes("&quot;") && APOS_TEXT == Codes("&#x27;")
  {
  }

  function ReplaceAll(s: Text, u: Unit, text: Text): Text {
    if s == [] then [] else (if s[0] == u then text else [s[0]]) + ReplaceAll(s[1..], u, text)
  }

  /** The ampersand first, so that the replacements of the other four are not escaped again. */
  function Escape(input: Text): Text {
    var a := ReplaceAll(input, AMP, AMP_TEXT);
    var b := ReplaceAll(a, LT, LT_TEXT);
    var c := ReplaceAll(b, GT, GT_TEXT);
    var d := ReplaceAll(c, QUOT, QUOT_TEXT);
    ReplaceAll(d, APOS, APOS_TEXT)
  }

  /** One unit's replacement. */
  function EscapeUnit(u: Unit): Text {
    if u == AMP then AMP_TEXT
    else if u == LT then LT_TEXT
    else if u == GT then GT_TEXT
    else if u == QUOT then QUOT_TEXT
    else if u == APOS then APOS_TEXT
    else [u]
  }

  function EscapeUnits(s: Text): Text {
    if s == [] then [] else EscapeUnit(s[0]) + EscapeUnits(s[1..])
  }

  lemma {:induction false} ReplaceAllSplits(a: Text, b: Text, u: Unit, text: Text)
    ensures ReplaceAll(a + b, u, text) == ReplaceAll(a, u, text) + ReplaceAll(b, u, text)
  {
    if a == [] {
      assert a + b == b;
    } else {
      assert (a + b)[1..] == a[1..] + b;
      ReplaceAllSplits(a[1..], b, u, text);
    }
  }

  lemma EscapeSplits(s: Text, t: Text)
    ensures Escape(s + t) == Escape(s) + Escape(t)
  {
    hide ReplaceAll;
    ReplaceAllSplits(s, t, AMP, AMP_TEXT);
    var a, a' := ReplaceAll(s, AMP, AMP_TEXT), ReplaceAll(t, AMP, AMP_TEXT);
    ReplaceAllSplits(a, a', LT, LT_TEXT);
    var b, b' := ReplaceAll(a, LT, LT_TEXT), ReplaceAll(a', LT, LT_TEXT);
    ReplaceAllSplits(b, b', GT, GT_TEXT);
    var c, c' := ReplaceAll(b, GT, GT_TEXT), ReplaceAll(b', GT, GT_TEXT);
    ReplaceAllSplits(c, c', QUOT, QUOT_TEXT);
    var d, d' := ReplaceAll(c, QUOT, QUOT_TEXT), ReplaceAll(c', QUOT, QUOT_TEXT);
    ReplaceAllSplits(d, d', APOS, APOS_TEXT);
  }

  lemma {:induction false} ReplaceAllAbsent(s: Text, u: Unit, text: Text)
    requires u !in s
    ensures ReplaceAll(s, u, text) == s
  {
    if s != [] {
      ReplaceAllAbsent(s[1..], u, text);
      assert [s[0]] + s[1..] == s;
    }
  }

  lemma ReplaceAllOne(s: Text, u: Unit, text: Text)
    requires |s| == 1
    ensures ReplaceAll(s, u, text) == if s[0] == u then text else s
  {
  }

  lemma EscapeOne(u: Unit)
    ensures Escape([u]) == EscapeUnit(u)
  {
    hide ReplaceAll;
    ReplaceAllOne([u], AMP, AMP_TEXT);
    var a := if u == AMP then AMP_TEXT else [u];
    if u == LT { ReplaceAllOne(a, LT, LT_TEXT); } else { ReplaceAllAbsent(a, LT, LT_TEXT); }
    var b := if u == LT then LT_TEXT else a;
    if u == GT { ReplaceAllOne(b, GT, GT_TEXT); } else { ReplaceAllAbsent(b, GT, GT_TEXT); }
    var c := if u == GT then GT_TEXT else b;
    if u == QUOT { ReplaceAllOne(c, QUOT, QUOT_TEXT); } else { ReplaceAllAbsent(c, QUOT, QUOT_TEXT); }
    var d := if u == QUOT then QUOT_TEXT else c;
    if u == APOS { ReplaceAllOne(d, APOS, APOS_TEXT); } else { ReplaceAllAbsent(d, APOS, APOS_TEXT); }
  }

  /** The five passes over the whole text are one pass that replaces each unit once. */
  lemma {:induction false} EscapeIsPerUnit(s: Text)
    ensures Escape(s) == EscapeUnits(s)
  {
    hide Escape;
    if s == [] {
      EscapeSplits([], []);
      assert [] + [] == s;
      assert |Escape(s)| == |Escape(s)| + |Escape(s)|;
    } else {
      assert [s[0]] + s[1..] == s;
      EscapeSplits([s[0]], s[1..]);
      EscapeOne(s[0]);
      EscapeIsPerUnit(s[1..]);
    }
  }

  predicate Significant(u: Unit) { u == LT || u == GT || u == QUOT || u == APOS }

  /** The result holds no markup character, */
  lemma {:induction false} EscapedIsInert(s: Text)
    ensures forall i :: 0 <= i < |Escape(s)| ==> !Significant(Escape(s)[i])
  {
    hide Escape;
    EscapeIsPerUnit(s);
    if s != [] {
      EscapedIsInert(s[1..]);
      EscapeIsPerUnit(s[1..]);
    }
  }

  /** and different texts never escape to the same one. */
  lemma {:induction false} EscapeIsInjective(s: Text, t: Text)
    requires Escape(s) == Escape(t)
    ensures s == t
  {
    hide Escape;
    EscapeIsPerUnit(s);
    EscapeIsPerUnit(t);
    if s != [] && t != [] {
      SameStartSameUnit(s[0], EscapeUnits(s[1..]), t[0], EscapeUnits(t[1..]));
      EscapeIsPerUnit(s[1..]);
      EscapeIsPerUnit(t[1..]);
      EscapeIsInjective(s[1..], t[1..]);
      assert [s[0]] + s[1..] == s && [t[0]] + t[1..] == t;
    }
  }

  lemma SameStartSameUnit(u: Unit, x: Text, v: Unit, y: Text)
    requires EscapeUnit(u) + x == EscapeUnit(v) + y
    ensures u == v && x == y
  {
    var all := EscapeUnit(u) + x;
    assert all[0] == EscapeUnit(u)[0] && all[0] == EscapeUnit(v)[0];
    if |EscapeUnit(u)| > 1 && |EscapeUnit(v)| > 1 {
      assert all[1] == EscapeUnit(u)[1] && all[1] == EscapeUnit(v)[1];
    }
    var n := |EscapeUnit(u)|;
    assert all[n..] == x && (EscapeUnit(v) + y)[|EscapeUnit(v)|..] == y;
  }
}
