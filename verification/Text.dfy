/** Rune-level string helpers shared by the modules: Go's unicode.IsSpace, the Trim family,
    substring search and the code-point order of strings. */
module Text {
  import opened Integers

  /** unicode.IsSpace: the code points with the White_Space property. */
  predicate IsSpace(c: char) {
    || '\t' <= c <= '\r'
    || c == ' ' || c == '\U{85}' || c == '\U{A0}' || c == '\U{1680}'
    || '\U{2000}' <= c <= '\U{200A}'
    || c == '\U{2028}' || c == '\U{2029}' || c == '\U{202F}' || c == '\U{205F}' || c == '\U{3000}'
  }

  /** The code points with the White_Space property, one by one. */
  const WHITE_SPACE :=
    "\t\n\U{B}\U{C}\r \U{85}\U{A0}\U{1680}\U{2000}\U{2001}\U{2002}\U{2003}\U{2004}\U{2005}\U{2006}\U{2007}\U{2008}\U{2009}\U{200A}\U{2028}\U{2029}\U{202F}\U{205F}\U{3000}"

  lemma SpacesAre(c: char)
    ensures IsSpace(c) <==> c in WHITE_SPACE
  {
    assert |WHITE_SPACE| == 25;
    if '\t' <= c <= '\r' {
      assert WHITE_SPACE[c as int - 9] == c;
    } else if '\U{2000}' <= c <= '\U{200A}' {
      assert WHITE_SPACE[c as int - 0x2000 + 9] == c;
    }
  }

  predicate AllSpace(s: string) {
    forall i | 0 <= i < |s| :: IsSpace(s[i])
  }

  /** Text that neither starts nor ends with a space. */
  predicate IsTrimmed(s: string) {
    s != "" ==> !IsSpace(s[0]) && !IsSpace(s[|s| - 1])
  }

  function TrimLeft(s: string, cut: char -> bool): (r: string)
    ensures |r| <= |s| && r == s[|s| - |r|..]
    ensures r != [] ==> !cut(r[0])
    ensures forall i | 0 <= i < |s| - |r| :: cut(s[i])
  {
    if s != [] && cut(s[0]) then
      var r := TrimLeft(s[1..], cut);
      assert r == s[1..][|s| - 1 - |r|..] == s[|s| - |r|..];
      assert forall i | 0 < i < |s| - |r| :: s[i] == s[1..][i - 1];
      r
    else s
  }

  function TrimRight(s: string, cut: char -> bool): (r: string)
    ensures r <= s
    ensures r != [] ==> !cut(r[|r| - 1])
    ensures forall i | |r| <= i < |s| :: cut(s[i])
  {
    if s != [] && cut(s[|s| - 1]) then TrimRight(s[..|s| - 1], cut) else s
  }

  function Trim(s: string, cut: char -> bool): (r: string) {
    TrimRight(TrimLeft(s, cut), cut)
  }

  function TrimSpace(s: string): (r: string) {
    Trim(s, IsSpace)
  }

  lemma {:induction false} TrimLeftSkips(cutOff: string, s: string, cut: char -> bool)
    requires forall i | 0 <= i < |cutOff| :: cut(cutOff[i])
    ensures TrimLeft(cutOff + s, cut) == TrimLeft(s, cut)
  {
    if cutOff == "" {
      assert cutOff + s == s;
    } else {
      assert (cutOff + s)[1..] == cutOff[1..] + s;
      TrimLeftSkips(cutOff[1..], s, cut);
    }
  }

  lemma {:induction false} TrimRightSkips(s: string, cutOff: string, cut: char -> bool)
    requires forall i | 0 <= i < |cutOff| :: cut(cutOff[i])
    ensures TrimRight(s + cutOff, cut) == TrimRight(s, cut)
  {
    if cutOff == "" {
      assert s + cutOff == s;
    } else {
      assert (s + cutOff)[..|s + cutOff| - 1] == s + cutOff[..|cutOff| - 1];
      TrimRightSkips(s, cutOff[..|cutOff| - 1], cut);
    }
  }

  lemma TrimTakesAll(s: string, cut: char -> bool)
    requires forall i | 0 <= i < |s| :: cut(s[i])
    ensures TrimLeft(s, cut) == "" && Trim(s, cut) == ""
  {}

  /** Trimming takes off what is to be cut on both sides and nothing else. */
  lemma TrimTakesOff(before: string, core: string, after: string, cut: char -> bool)
    requires forall i | 0 <= i < |before| :: cut(before[i])
    requires forall i | 0 <= i < |after| :: cut(after[i])
    requires core != "" ==> !cut(core[0]) && !cut(core[|core| - 1])
    ensures Trim(before + core + after, cut) == core
  {
    hide TrimLeft, TrimRight;
    if core == "" {
      TrimTakesAll(before + core + after, cut);
    } else {
      AppendAssociates(before, core, after);
      TrimLeftSkips(before, core + after, cut);
      TrimLeftNone(core + after, cut);
      TrimRightSkips(core, after, cut);
      TrimRightNone(core, cut);
    }
  }

  /** A text is spaces, what TrimSpace makes of it, and spaces. */
  lemma TrimSpaceTakesOff(before: string, core: string, after: string)
    requires AllSpace(before) && AllSpace(after) && IsTrimmed(core)
    ensures TrimSpace(before + core + after) == core
  {
    hide IsSpace;
    TrimTakesOff(before, core, after, IsSpace);
  }

  /** The spaces that TrimSpace takes off on both sides. */
  lemma TrimSplits(s: string) returns (before: string, after: string)
    ensures AllSpace(before) && AllSpace(after) && s == before + TrimSpace(s) + after
  {
    hide TrimLeft, TrimRight;
    before := LeftIsTakenOff(s, IsSpace);
    after := RightIsTakenOff(TrimLeft(s, IsSpace), IsSpace);
    AppendAssociates(before, TrimSpace(s), after);
  }

  lemma LeftIsTakenOff(s: string, cut: char -> bool) returns (before: string)
    ensures s == before + TrimLeft(s, cut) && forall i | 0 <= i < |before| :: cut(before[i])
  {
    hide TrimLeft;
    before := s[..|s| - |TrimLeft(s, cut)|];
  }

  lemma RightIsTakenOff(s: string, cut: char -> bool) returns (after: string)
    ensures s == TrimRight(s, cut) + after && forall i | 0 <= i < |after| :: cut(after[i])
  {
    hide TrimRight;
    after := s[|TrimRight(s, cut)|..];
  }

  lemma BlankIsTrimmed(s: string)
    ensures AllSpace(s) <==> TrimSpace(s) == ""
  {
    hide IsSpace;
    if AllSpace(s) {
      TrimSpaceTakesOff(s, "", "");
      assert s + "" + "" == s;
    } else {
      var i :| 0 <= i < |s| && !IsSpace(s[i]);
      var left := TrimLeft(s, IsSpace);
      assert left != "" && left[0] == s[|s| - |left|];
    }
  }

  /** Trimming leaves the text alone exactly when neither end is trimmed. */
  lemma TrimFixed(s: string, cut: char -> bool)
    ensures Trim(s, cut) == s <==> s == [] || (!cut(s[0]) && !cut(s[|s| - 1]))
  {
    var left := TrimLeft(s, cut);
    if s != [] && Trim(s, cut) == s {
      assert |left| >= |s|;
    }
  }

  lemma TrimLeftNone(s: string, cut: char -> bool)
    requires s != [] ==> !cut(s[0])
    ensures TrimLeft(s, cut) == s
  {}

  lemma TrimRightNone(s: string, cut: char -> bool)
    requires s != [] ==> !cut(s[|s| - 1])
    ensures TrimRight(s, cut) == s
  {}

  lemma TrimRightOne(s: string, c: char, cut: char -> bool)
    requires cut(c)
    ensures TrimRight(s + [c], cut) == TrimRight(s, cut)
  {
    assert (s + [c])[..|s|] == s;
  }

  /** A trimmed text is not trimmed any further. */
  lemma TrimIdempotent(s: string, cut: char -> bool)
    ensures Trim(Trim(s, cut), cut) == Trim(s, cut)
  {
    TrimFixed(Trim(s, cut), cut);
    var left := TrimLeft(s, cut);
    assert TrimRight(left, cut) <= left;
  }

  /** The punctuation that does not belong to a reference at whose end it stands. */
  predicate IsTrailingPunctuation(c: char) {
    c in ".,;:!?)]}"
  }

  function TrimPrefix(s: string, prefix: string): string {
    if prefix <= s then s[|prefix|..] else s
  }

  /** strings.ToLower maps rune by rune; the Unicode case table is the parameter. */
  function MapRunes(f: char -> char, s: string): (r: string)
    ensures |r| == |s| && forall i | 0 <= i < |s| :: r[i] == f(s[i])
  {
    seq(|s|, i requires 0 <= i < |s| => f(s[i]))
  }

  /** The parts one after the other with the separator between them. */
  function Join(parts: seq<string>, separator: string): string {
    if parts == [] then ""
    else if |parts| == 1 then parts[0]
    else Join(parts[..|parts| - 1], separator) + separator + parts[|parts| - 1]
  }

  lemma JoinSnoc(parts: seq<string>, separator: string, part: string)
    ensures Join(parts + [part], separator) ==
            if parts == [] then part else Join(parts, separator) + separator + part
  {
    if parts != [] {
      assert (parts + [part])[..|parts|] == parts;
    }
  }

  lemma AppendAssociates<T>(a: seq<T>, b: seq<T>, c: seq<T>)
    ensures a + (b + c) == (a + b) + c
  {}

  lemma {:induction false} JoinCons(part: string, parts: seq<string>, separator: string)
    ensures Join([part] + parts, separator) ==
            if parts == [] then part else part + separator + Join(parts, separator)
  {
    hide Join;
    if parts == [] {
      JoinSnoc([], separator, part);
      assert [part] + parts == [] + [part];
    } else {
      var init, last := parts[..|parts| - 1], parts[|parts| - 1];
      JoinCons(part, init, separator);
      AppendAssociates([part], init, [last]);
      assert parts == init + [last];
      JoinSnoc([part] + init, separator, last);
      JoinSnoc(init, separator, last);
      AppendAssociates(part + separator, Join(init, separator) + separator, last);
      AppendAssociates(part + separator, Join(init, separator), separator);
    }
  }

  /** The number of bytes of a rune in UTF-8. */
  function RuneLen(c: char): (n: nat)
    ensures 1 <= n <= 4
  {
    if c < '\U{80}' then 1 else if c < '\U{800}' then 2 else if c < '\U{10000}' then 3 else 4
  }

  /** len(s): the bytes of a string. */
  function Len(s: string): nat {
    if s == "" then 0 else Len(s[..|s| - 1]) + RuneLen(s[|s| - 1])
  }

  /** The bits of a code point that fit into a UTF-8 sequence of `n` bytes: 7, 11, 16 and 21. */
  function Payload(n: nat): nat {
    if n == 1 then 7 else 5 * n + 1
  }

  /** A rune takes the shortest sequence it fits into. */
  lemma RuneLenIsShortest(c: char, n: nat)
    requires 1 <= n <= 4
    ensures RuneLen(c) <= n <==> (c as int) < Power2(Payload(n))
  {
    PowersOfTwo();
  }

  lemma PowersOfTwo()
    ensures Power2(7) == 0x80 && Power2(11) == 0x800 && Power2(16) == 0x1_0000 && Power2(21) == 0x20_0000
  {
    assert Power2(2) == 4 && Power2(4) == 16 && Power2(6) == 64 && Power2(8) == 256;
    assert Power2(10) == 1024 && Power2(12) == 4096 && Power2(14) == 0x4000 && Power2(18) == 0x4_0000;
    assert Power2(20) == 0x10_0000;
  }

  lemma {:induction false} LenAppend(a: string, b: string)
    ensures Len(a + b) == Len(a) + Len(b)
  {
    if b == "" {
      assert a + b == a;
    } else {
      assert (a + b)[..|a + b| - 1] == a + b[..|b| - 1];
      LenAppend(a, b[..|b| - 1]);
    }
  }

  /** A prefix has no more bytes, and as many only if it is the whole text. */
  lemma {:induction false} PrefixLen(prefix: string, s: string)
    requires prefix <= s
    ensures Len(prefix) <= Len(s)
    ensures Len(prefix) == Len(s) ==> prefix == s
  {
    if prefix != s {
      PrefixLen(prefix, s[..|s| - 1]);
    }
  }

  predicate OccursAt(s: string, sub: string, at: int) {
    0 <= at && at + |sub| <= |s| && s[at..at + |sub|] == sub
  }

  /** The least position from `from` on at which `sub` occurs, or -1. */
  function IndexFrom(s: string, sub: string, from: nat): (at: int)
    ensures at == -1 || (from <= at && OccursAt(s, sub, at))
    ensures forall i | from <= i && (at == -1 || i < at) :: !OccursAt(s, sub, i)
    decreases |s| - from
  {
    if from + |sub| > |s| then -1
    else if OccursAt(s, sub, from) then from
    else if from == |s| then -1
    else IndexFrom(s, sub, from + 1)
  }

  /** The least position from `from` on that holds `c`, or -1. */
  function IndexRune(s: string, c: char, from: nat): (at: int)
    ensures at == -1 || (from <= at < |s| && s[at] == c)
    ensures forall i | from <= i < |s| && (at == -1 || i < at) :: s[i] != c
    decreases |s| - from
  {
    if from >= |s| then -1 else if s[from] == c then from else IndexRune(s, c, from + 1)
  }

  /** The code-point order of strings, which is Go's byte order on their UTF-8 forms. */
  predicate LexLe(a: string, b: string) {
    a == [] || (b != [] && (a[0] < b[0] || (a[0] == b[0] && LexLe(a[1..], b[1..]))))
  }

  lemma LexTotal(a: string, b: string)
    ensures LexLe(a, b) || LexLe(b, a)
    ensures LexLe(a, b) && LexLe(b, a) ==> a == b
  {
    if a != [] && b != [] && a[0] == b[0] {
      LexTotal(a[1..], b[1..]);
      assert a == [a[0]] + a[1..] && b == [b[0]] + b[1..];
    }
  }

  /** Strings are ordered by their first difference, and a prefix comes first. */
  lemma {:induction false} LexByFirstDifference(common: string, a: string, b: string)
    requires a != "" && b != "" ==> a[0] != b[0]
    ensures LexLe(common + a, common + b) <==> a == "" || (b != "" && a[0] < b[0])
  {
    if common == "" {
      assert common + a == a && common + b == b;
    } else {
      assert (common + a)[1..] == common[1..] + a && (common + b)[1..] == common[1..] + b;
      LexByFirstDifference(common[1..], a, b);
    }
  }

  lemma LexTransitive(a: string, b: string, c: string)
    requires LexLe(a, b) && LexLe(b, c)
    ensures LexLe(a, c)
  {
    if a != [] && a[0] == b[0] && b[0] == c[0] {
      LexTransitive(a[1..], b[1..], c[1..]);
    }
  }
}
