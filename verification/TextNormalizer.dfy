/** Text normalisation: cedilla letters become comma-below letters, long whitespace runs become one blank
    line, and both ends are stripped. */
module TextNormalizer {

  /** The characters Python's `\s` and `strip` take for whitespace. */
  predicate IsSpace(c: char) {
    || '\U{0009}' <= c <= '\U{000D}' || '\U{001C}' <= c <= '\U{0020}' || c == '\U{0085}' || c == '\U{00A0}'
    || c == '\U{1680}' || '\U{2000}' <= c <= '\U{200A}' || c == '\U{2028}' || c == '\U{2029}' || c == '\U{202F}'
    || c == '\U{205F}' || c == '\U{3000}'
  }

  /** They are these twenty-nine. */
  lemma SpaceCharacters(c: char)
    ensures IsSpace(c) <==>
            c in ['\U{0009}', '\U{000A}', '\U{000B}', '\U{000C}', '\U{000D}', '\U{001C}', '\U{001D}', '\U{001E}', '\U{001F}',
                  '\U{0020}', '\U{0085}', '\U{00A0}', '\U{1680}', '\U{2000}', '\U{2001}', '\U{2002}', '\U{2003}', '\U{2004}',
                  '\U{2005}', '\U{2006}', '\U{2007}', '\U{2008}', '\U{2009}', '\U{200A}', '\U{2028}', '\U{2029}', '\U{202F}',
                  '\U{205F}', '\U{3000}']
  {
  }

  /** Wrong (cedilla) and right (comma-below) letters, in replacement order. */
  const WRONG_CHARS: seq<(char, char)> :=
    [('\U{015F}', '\U{0219}'), ('\U{015E}', '\U{0218}'), ('\U{0163}', '\U{021B}'), ('\U{0162}', '\U{021A}')]

  predicate IsCedilla(c: char) {
    c == '\U{015F}' || c == '\U{015E}' || c == '\U{0163}' || c == '\U{0162}'
  }

  /** The diacritic map on one character. */
  function Fix(c: char): char {
    if c == '\U{015F}' then '\U{0219}'
    else if c == '\U{015E}' then '\U{0218}'
    else if c == '\U{0163}' then '\U{021B}'
    else if c == '\U{0162}' then '\U{021A}'
    else c
  }

  function Replace(s: string, wrong: char, right: char): (r: string)
    ensures |r| == |s|
    ensures forall i | 0 <= i < |s| :: r[i] == if s[i] == wrong then right else s[i]
  {
    if s == "" then "" else [if s[0] == wrong then right else s[0]] + Replace(s[1..], wrong, right)
  }

  /** The four replacements, one after the other, amount to the diacritic map. */
  method FixDiacritics(text: string) returns (fixed: string)
    ensures |fixed| == |text| && forall i | 0 <= i < |text| :: fixed[i] == Fix(text[i])
    ensures forall i | 0 <= i < |text| ::
              && (text[i] == '\U{015F}' ==> fixed[i] == '\U{0219}') && (text[i] == '\U{015E}' ==> fixed[i] == '\U{0218}')
              && (text[i] == '\U{0163}' ==> fixed[i] == '\U{021B}') && (text[i] == '\U{0162}' ==> fixed[i] == '\U{021A}')
              && (text[i] !in {'\U{015F}', '\U{015E}', '\U{0163}', '\U{0162}'} ==> fixed[i] == text[i])
  {
    fixed := text;
    for k := 0 to |WRONG_CHARS|
      invariant |fixed| == |text|
      invariant forall i | 0 <= i < |text| :: fixed[i] == FixFirst(text[i], k)
    {
      fixed := Replace(fixed, WRONG_CHARS[k].0, WRONG_CHARS[k].1);
    }
    forall i | 0 <= i < |text|
      ensures fixed[i] == Fix(text[i])
    {
      FourReplacements(text[i]);
    }
  }

  lemma FourReplacements(c: char)
    ensures FixFirst(c, 4) == Fix(c)
  {
    assert WRONG_CHARS[0].0 == '\U{015F}' && WRONG_CHARS[0].1 == '\U{0219}' && FixFirst(c, 0) == c;
    var c1 := FixFirst(c, 1);
    var c2 := FixFirst(c, 2);
    var c3 := FixFirst(c, 3);
    assert c1 == if c == '\U{015F}' then '\U{0219}' else c;
    assert c2 == if c1 == '\U{015E}' then '\U{0218}' else c1;
    assert c3 == if c2 == '\U{0163}' then '\U{021B}' else c2;
  }

  /** The character after the first `k` replacements. */
  function FixFirst(c: char, k: nat): char
    requires k <= |WRONG_CHARS|
  {
    if k == 0 then c
    else
      var d := FixFirst(c, k - 1);
      if d == WRONG_CHARS[k - 1].0 then WRONG_CHARS[k - 1].1 else d
  }

  function FixAll(s: string): (r: string)
    ensures |r| == |s| && forall i | 0 <= i < |s| :: r[i] == Fix(s[i])
  {
    if s == "" then "" else [Fix(s[0])] + FixAll(s[1..])
  }

  /** Length of the whitespace run at the front. */
  function Run(s: string): (n: nat)
    ensures n <= |s|
    ensures forall i | 0 <= i < n :: IsSpace(s[i])
    ensures n < |s| ==> !IsSpace(s[n])
  {
    if s == "" || !IsSpace(s[0]) then 0 else 1 + Run(s[1..])
  }

  /** `re.sub` of runs of three or more whitespace characters by a blank line, scanning left to right. */
  function Collapse(s: string): string
    decreases |s|
  {
    if s == "" then ""
    else
      var n := Run(s);
      if n >= 3 then "\n\n" + Collapse(s[n..])
      else if n > 0 then s[..n] + Collapse(s[n..])
      else [s[0]] + Collapse(s[1..])
  }

  /** Length of the whitespace run at the back. */
  function BackRun(s: string): (n: nat)
    ensures n <= |s|
    ensures forall i | |s| - n <= i < |s| :: IsSpace(s[i])
    ensures n < |s| ==> !IsSpace(s[|s| - n - 1])
  {
    if s == "" || !IsSpace(s[|s| - 1]) then 0 else 1 + BackRun(s[..|s| - 1])
  }

  function StripLeft(s: string): string {
    s[Run(s)..]
  }

  function StripRight(s: string): string {
    s[..|s| - BackRun(s)]
  }

  function Normalize(s: string): string {
    StripRight(StripLeft(Collapse(FixAll(s))))
  }

  /** The whole normaliser as the service calls it. */
  method NormalizeText(text: string) returns (r: string)
    ensures r == Normalize(text)
  {
    var fixed := FixDiacritics(text);
    assert fixed == FixAll(text);
    r := StripRight(StripLeft(Collapse(fixed)));
  }

  // ----- what the result looks like

  ghost predicate NoCedilla(s: string) {
    forall i | 0 <= i < |s| :: !IsCedilla(s[i])
  }

  ghost predicate NoLongRun(s: string) {
    forall i | 0 <= i < |s| - 2 :: !(IsSpace(s[i]) && IsSpace(s[i + 1]) && IsSpace(s[i + 2]))
  }

  ghost predicate CleanEnds(s: string) {
    s == "" || (!IsSpace(s[0]) && !IsSpace(s[|s| - 1]))
  }

  /** The non-whitespace characters, in order. */
  function Ink(s: string): string {
    if s == "" then "" else (if IsSpace(s[0]) then "" else [s[0]]) + Ink(s[1..])
  }

  lemma {:induction false} InkConcat(a: string, b: string)
    ensures Ink(a + b) == Ink(a) + Ink(b)
    decreases |a|
  {
    if a == "" {
      assert a + b == b;
    } else {
      assert (a + b)[1..] == a[1..] + b;
      InkConcat(a[1..], b);
    }
  }

  lemma {:induction false} InkOfSpace(s: string)
    requires forall i | 0 <= i < |s| :: IsSpace(s[i])
    ensures Ink(s) == ""
  {
    if s == "" {
    } else {
      InkOfSpace(s[1..]);
    }
  }

  /** The piece collapsing puts in place of the first run or character, and what is left to scan. */
  function Head(s: string): string
    requires s != ""
  {
    var n := Run(s);
    if n >= 3 then "\n\n" else if n > 0 then s[..n] else [s[0]]
  }

  function Rest(s: string): (r: string)
    requires s != ""
    ensures |r| < |s|
  {
    if Run(s) > 0 then s[Run(s)..] else s[1..]
  }

  lemma CollapseStep(s: string)
    requires s != ""
    ensures Collapse(s) == Head(s) + Collapse(Rest(s)) && 0 < |Head(s)| <= 2
    ensures IsSpace(Head(s)[0]) <==> IsSpace(s[0])
    ensures if IsSpace(s[0]) then Rest(s) != "" ==> !IsSpace(Rest(s)[0]) else |Head(s)| == 1
    ensures Ink(s) == Ink(Head(s)) + Ink(Rest(s))
    ensures NoCedilla(s) ==> NoCedilla(Head(s)) && NoCedilla(Rest(s))
  {
    var n := Run(s);
    var k := if n > 0 then n else 1;
    assert s == s[..k] + s[k..];
    InkConcat(s[..k], s[k..]);
    if n >= 3 {
      assert IsSpace('\n');
      InkOfSpace(s[..n]);
      InkOfSpace("\n\n");
    } else if n == 0 {
      assert s[..1] == [s[0]];
    }
    hide IsSpace, Ink;
  }

  /** What collapsing keeps and what it removes. */
  lemma {:induction false} CollapseFacts(s: string)
    ensures NoLongRun(Collapse(s))
    ensures Ink(Collapse(s)) == Ink(s)
    ensures NoCedilla(s) ==> NoCedilla(Collapse(s))
    ensures s != "" ==> Collapse(s) != "" && (IsSpace(Collapse(s)[0]) <==> IsSpace(s[0]))
    decreases |s|
  {
    if s == "" {
    } else {
      CollapseStep(s);
      CollapseFacts(Rest(s));
      hide Collapse, IsSpace, Ink, Head, Rest;
      NoLongRunStep(Head(s), Collapse(Rest(s)));
      InkConcat(Head(s), Collapse(Rest(s)));
    }
  }

  /** A short piece in front of a text without long runs makes none, if it is one visible character or a
      run that ends where the text starts visibly. */
  lemma NoLongRunStep(head: string, tail: string)
    requires NoLongRun(tail) && 0 < |head| <= 2
    requires (|head| == 1 && !IsSpace(head[0])) || (tail != "" ==> !IsSpace(tail[0]))
    ensures NoLongRun(head + tail)
  {
    var s := head + tail;
    hide IsSpace;
    forall i | 0 <= i < |s| - 2
      ensures !(IsSpace(s[i]) && IsSpace(s[i + 1]) && IsSpace(s[i + 2]))
    {
      if i >= |head| {
        assert s[i] == tail[i - |head|] && s[i + 1] == tail[i + 1 - |head|] && s[i + 2] == tail[i + 2 - |head|];
      } else {
        assert s[|head|] == tail[0];
      }
    }
  }

  lemma InkDropFront(s: string, n: nat)
    requires n <= |s| && forall i | 0 <= i < n :: IsSpace(s[i])
    ensures Ink(s[n..]) == Ink(s)
  {
    hide Ink, IsSpace;
    var front, back := s[..n], s[n..];
    assert s == front + back;
    InkOfSpace(front);
    InkConcat(front, back);
    assert "" + Ink(back) == Ink(back);
  }

  lemma InkDropBack(s: string, m: nat)
    requires m <= |s| && forall i | m <= i < |s| :: IsSpace(s[i])
    ensures Ink(s[..m]) == Ink(s)
  {
    hide Ink, IsSpace;
    var front, back := s[..m], s[m..];
    assert s == front + back;
    InkOfSpace(back);
    InkConcat(front, back);
    assert Ink(front) + "" == Ink(front);
  }

  lemma {:induction false} InkOfFixed(s: string)
    ensures Ink(FixAll(s)) == FixAll(Ink(s))
  {
    if s == "" {
    } else {
      InkOfFixed(s[1..]);
      assert FixAll(s)[0] == Fix(s[0]) && FixAll(s)[1..] == FixAll(s[1..]);
      assert IsSpace(Fix(s[0])) <==> IsSpace(s[0]);
      if !IsSpace(s[0]) {
        assert ([s[0]] + Ink(s[1..]))[1..] == Ink(s[1..]);
      } else {
        assert "" + Ink(s[1..]) == Ink(s[1..]);
      }
    }
  }

  lemma EndsAreClean(b: string)
    ensures CleanEnds(StripRight(StripLeft(b)))
  {
    hide IsSpace;
    var c := StripLeft(b);
    var r := StripRight(c);
    if r != "" {
      assert r[0] == c[0] == b[Run(b)];
      assert r[|r| - 1] == c[|c| - BackRun(c) - 1];
    }
    hide Run, BackRun;
  }

  lemma Stripped(b: string)
    requires NoLongRun(b) && NoCedilla(b)
    ensures var r := StripRight(StripLeft(b)); NoLongRun(r) && NoCedilla(r) && CleanEnds(r) && Ink(r) == Ink(b)
  {
    hide IsSpace, Ink, Run, BackRun, NoLongRun, NoCedilla, CleanEnds;
    var c := StripLeft(b);
    EndsAreClean(b);
    InkDropFront(b, Run(b));
    InkDropBack(c, |c| - BackRun(c));
    SliceKeeps(b, Run(b), |b|);
    assert b[Run(b)..|b|] == c;
    SliceKeeps(c, 0, |c| - BackRun(c));
    assert c[0..|c| - BackRun(c)] == StripRight(c);
  }

  lemma FixedHasNoCedilla(s: string)
    ensures NoCedilla(FixAll(s))
  {
  }

  /** For every text: no cedilla letter, no run of three whitespace characters, nothing blank at either
      end, and exactly the input's visible characters, diacritics corrected, in order. */
  lemma NormalizedText(s: string)
    ensures var r := Normalize(s);
            && NoCedilla(r) && NoLongRun(r) && CleanEnds(r)
            && Ink(r) == FixAll(Ink(s))
  {
    InkOfFixed(s);
    FixedHasNoCedilla(s);
    CollapseFacts(FixAll(s));
    Stripped(Collapse(FixAll(s)));
    hide Collapse, FixAll, Ink, StripLeft, StripRight, NoCedilla, NoLongRun, CleanEnds;
  }

  lemma SliceKeeps(s: string, k: nat, m: nat)
    requires k <= m <= |s| && NoLongRun(s) && NoCedilla(s)
    ensures NoLongRun(s[k..m]) && NoCedilla(s[k..m])
  {
    hide IsSpace;
    var t := s[k..m];
    assert forall i | 0 <= i < |t| :: t[i] == s[i + k];
    forall i | 0 <= i < |t| - 2
      ensures !(IsSpace(t[i]) && IsSpace(t[i + 1]) && IsSpace(t[i + 2]))
    {
      assert t[i] == s[i + k] && t[i + 1] == s[i + k + 1] && t[i + 2] == s[i + k + 2];
    }
  }

  // ----- a text that already looks like that is left alone

  lemma {:induction false} CollapseLeavesAlone(s: string)
    requires NoLongRun(s)
    ensures Collapse(s) == s
    decreases |s|
  {
    if s == "" {
    } else {
      var n := Run(s);
      ShortRun(s);
      var k := if n > 0 then n else 1;
      TailHasNoLongRun(s, k);
      CollapseLeavesAlone(s[k..]);
      assert s == s[..k] + s[k..];
      assert n == 0 ==> s[..1] == [s[0]];
      hide IsSpace;
    }
  }

  lemma ShortRun(s: string)
    requires NoLongRun(s)
    ensures Run(s) < 3
  {
    hide IsSpace;
    if |s| >= 3 {
      assert !(IsSpace(s[0]) && IsSpace(s[0 + 1]) && IsSpace(s[0 + 2]));
    }
  }

  lemma TailHasNoLongRun(s: string, k: nat)
    requires k <= |s| && NoLongRun(s)
    ensures NoLongRun(s[k..])
  {
    hide IsSpace;
    var t := s[k..];
    forall i | 0 <= i < |t| - 2
      ensures !(IsSpace(t[i]) && IsSpace(t[i + 1]) && IsSpace(t[i + 2]))
    {
      assert t[i] == s[i + k] && t[i + 1] == s[i + k + 1] && t[i + 2] == s[i + k + 2];
    }
  }

  /** Normalising twice is normalising once. */
  lemma NormalizeTwice(s: string)
    ensures Normalize(Normalize(s)) == Normalize(s)
  {
    var r := Normalize(s);
    NormalizedText(s);
    assert FixAll(r) == r;
    CollapseLeavesAlone(r);
    assert StripLeft(r) == r && StripRight(r) == r;
  }

  // ----- what becomes of a run

  predicate AllSpace(s: string) {
    forall i | 0 <= i < |s| :: IsSpace(s[i])
  }

  lemma {:induction false} RunOfConcat(a: string, b: string)
    requires Run(a) < |a| || b == "" || !IsSpace(b[0])
    ensures Run(a + b) == Run(a)
    decreases |a|
  {
    if a == "" {
      assert a + b == b;
    } else {
      assert (a + b)[1..] == a[1..] + b;
      if IsSpace(a[0]) {
        RunOfConcat(a[1..], b);
      }
    }
  }

  lemma {:induction false} RunOfSpaces(ws: string)
    requires AllSpace(ws)
    ensures Run(ws) == |ws|
  {
    if ws == "" {
    } else {
      RunOfSpaces(ws[1..]);
    }
  }

  lemma {:induction false} CollapseRun(a: string, ws: string, b: string)
    requires ws != "" && AllSpace(ws) && (b == "" || !IsSpace(b[0])) && (a == "" || !IsSpace(a[|a| - 1]))
    ensures Collapse(a + (ws + b)) == Collapse(a) + ((if |ws| >= 3 then "\n\n" else ws) + Collapse(b))
    decreases |a|
  {
    hide Collapse, IsSpace, AllSpace, Head, Rest;
    var blank := if |ws| >= 3 then "\n\n" else ws;
    if a == "" {
      assert a + (ws + b) == ws + b;
      FirstRunCollapses(ws, b);
      EmptyCollapses();
      assert "" + (blank + Collapse(b)) == blank + Collapse(b);
    } else {
      HeadOfConcat(a, ws + b);
      CollapseStep(a);
      CollapseStep(a + (ws + b));
      CollapseRun(Rest(a), ws, b);
      assert Head(a) + (Collapse(Rest(a)) + (blank + Collapse(b))) == (Head(a) + Collapse(Rest(a))) + (blank + Collapse(b));
    }
  }

  lemma FirstRunCollapses(ws: string, b: string)
    requires ws != "" && AllSpace(ws) && (b == "" || !IsSpace(b[0]))
    ensures Collapse(ws + b) == (if |ws| >= 3 then "\n\n" else ws) + Collapse(b)
  {
    hide Collapse, IsSpace;
    var c := ws + b;
    RunOfSpaces(ws);
    RunOfConcat(ws, b);
    CollapseStep(c);
    assert c[..|ws|] == ws && c[|ws|..] == b;
  }

  lemma EmptyCollapses()
    ensures Collapse("") == ""
  {
  }

  /** What follows a text that ends visibly does not change its first piece. */
  lemma HeadOfConcat(a: string, c: string)
    requires a != "" && !IsSpace(a[|a| - 1])
    ensures Head(a + c) == Head(a) && Rest(a + c) == Rest(a) + c
    ensures Rest(a) == "" || !IsSpace(Rest(a)[|Rest(a)| - 1])
  {
    hide IsSpace;
    var n := Run(a);
    assert n < |a|;
    RunOfConcat(a, c);
    var k := if n > 0 then n else 1;
    assert (a + c)[..n] == a[..n] && (a + c)[0] == a[0];
    assert (a + c)[k..] == a[k..] + c;
  }

  lemma FixKeepsSpace(c: char)
    ensures IsSpace(Fix(c)) <==> IsSpace(c)
  {
  }

  lemma FixedSpaces(s: string)
    requires NoLongRun(s) && CleanEnds(s)
    ensures NoLongRun(FixAll(s)) && CleanEnds(FixAll(s))
  {
    hide IsSpace, Fix;
    var t := FixAll(s);
    forall i | 0 <= i < |s|
      ensures IsSpace(t[i]) <==> IsSpace(s[i])
    {
      FixKeepsSpace(s[i]);
    }
    forall i | 0 <= i < |t| - 2
      ensures !(IsSpace(t[i]) && IsSpace(t[i + 1]) && IsSpace(t[i + 2]))
    {
      assert !(IsSpace(s[i]) && IsSpace(s[i + 1]) && IsSpace(s[i + 2]));
    }
  }

  lemma {:induction false} FixConcat(a: string, b: string)
    ensures FixAll(a + b) == FixAll(a) + FixAll(b)
  {
  }

  /** Between two texts without long runs, a run of three or more whitespace characters becomes exactly one
      blank line and a shorter one is kept as it is. */
  lemma RunBetweenTexts(a: string, ws: string, b: string)
    requires a != "" && b != "" && CleanEnds(a) && CleanEnds(b) && NoLongRun(a) && NoLongRun(b)
    requires ws != "" && AllSpace(ws)
    ensures Normalize(a + (ws + b)) == FixAll(a) + ((if |ws| >= 3 then "\n\n" else ws) + FixAll(b))
  {
    hide Collapse, Fix, IsSpace, NoLongRun;
    var x, y, blank := FixAll(a), FixAll(b), if |ws| >= 3 then "\n\n" else ws;
    FixedSpaces(a);
    FixedSpaces(b);
    SpacesStay(ws);
    FixConcat(a, ws + b);
    FixConcat(ws, b);
    CollapseRun(x, ws, y);
    CollapseLeavesAlone(x);
    CollapseLeavesAlone(y);
    EndsStay(x, blank, y);
  }

  lemma SpacesStay(ws: string)
    requires AllSpace(ws)
    ensures FixAll(ws) == ws
  {
  }

  lemma EndsStay(x: string, blank: string, y: string)
    requires x != "" && y != "" && CleanEnds(x) && CleanEnds(y)
    ensures StripRight(StripLeft(x + (blank + y))) == x + (blank + y)
  {
    hide IsSpace;
    var r := x + (blank + y);
    assert r[0] == x[0] && r[|r| - 1] == y[|y| - 1];
    assert StripLeft(r) == r;
  }
}
