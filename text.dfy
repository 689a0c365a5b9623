/** The `Option` wrapper used for "the backend returned a value" versus
    "the backend raised", and for Python's `None`. */
module Wrappers {
  datatype Option<+T> = None | Some(value: T)
}

/** A field's stored coordinates: Python's `None` or a list of integers,
    `[x1, y1, x2, y2]` when well formed. */
module Coordinates {
  import opened Wrappers

  type Coords = Option<seq<int>>

  /** Python truthiness of the stored value: neither `None` nor `[]`. */
  predicate Truthy(c: Coords) {
    c.Some? && |c.value| > 0
  }
}

/** Python's string primitives used by the OCR code: `str.strip`, blank tests
    and character counts, over character classes supplied by the caller. */
module Text {

  /** Python's Unicode character classes are not tabulated here. They are
      supplied as predicates:
      - `isSpace` is `str.isspace`, which is also what `re`'s `\s`,
        `str.strip()` and `str.split()` use;
      - `isAlnum` is `str.isalnum`; `re`'s `\w` is `isalnum` or `'_'`;
      - `isDigit` is `str.isdigit`. The cleaner's allow-list names `re`'s
        `\d`, which is `str.isdecimal`, a smaller set; it is written there
        as `isDigit` because both sets lie inside `\w` (every decimal or
        digit character is alphanumeric), so the allow-list is the same. */
  datatype CharClasses = CharClasses(
    isSpace: char -> bool,
    isAlnum: char -> bool,
    isDigit: char -> bool)

  /** The only facts about the Unicode tables the proofs rely on. */
  ghost predicate Sound(cc: CharClasses) {
    && cc.isSpace(' ')
    && cc.isAlnum('İ') && !cc.isSpace('İ')
  }

  /** `re`'s `\w`. */
  predicate IsWord(cc: CharClasses, c: char) {
    cc.isAlnum(c) || c == '_'
  }

  /** `not s.strip()`: the string is empty or all whitespace. */
  predicate IsBlank(cc: CharClasses, s: string) {
    forall i | 0 <= i < |s| :: cc.isSpace(s[i])
  }

  /** `s.lstrip()`: drops the leading whitespace run. */
  function StripLeft(cc: CharClasses, s: string): (r: string)
    ensures |r| <= |s| && r == s[|s| - |r|..]
    ensures r == [] || !cc.isSpace(r[0])
    ensures IsBlank(cc, s[..|s| - |r|])
    decreases |s|
  {
    if s != [] && cc.isSpace(s[0]) then
      var r := StripLeft(cc, s[1..]);
      assert s[..|s| - |r|] == [s[0]] + s[1..][..|s| - 1 - |r|];
      r
    else
      s
  }

  /** `s.rstrip()`: drops the trailing whitespace run. */
  function StripRight(cc: CharClasses, s: string): (r: string)
    ensures |r| <= |s| && r == s[..|r|]
    ensures r == [] || !cc.isSpace(r[|r| - 1])
    ensures IsBlank(cc, s[|r|..])
    decreases |s|
  {
    if s != [] && cc.isSpace(s[|s| - 1]) then
      var r := StripRight(cc, s[..|s| - 1]);
      assert s[|r|..] == s[..|s| - 1][|r|..] + [s[|s| - 1]];
      r
    else
      s
  }

  /** `s.strip()`. */
  function Strip(cc: CharClasses, s: string): (r: string)
  {
    StripRight(cc, StripLeft(cc, s))
  }

  /** `s.strip()` neither starts nor ends with whitespace, and it is empty
      exactly when `s` is blank. */
  lemma StripShape(cc: CharClasses, s: string)
    ensures var r := Strip(cc, s);
      && (r == [] || (!cc.isSpace(r[0]) && !cc.isSpace(r[|r| - 1])))
      && (r == [] <==> IsBlank(cc, s))
  {
    var t := StripLeft(cc, s);
    var r := StripRight(cc, t);
    if t == [] {
      assert s[..|s|] == s;
    } else {
      assert !cc.isSpace(t[0]);
      assert r[0] == t[0];
      assert s[|s| - |t|] == t[0];
    }
  }

  /** `s.strip()` is a contiguous piece of `s`, starting at `a`. */
  lemma StripSlice(cc: CharClasses, s: string) returns (a: nat)
    ensures a + |Strip(cc, s)| <= |s| && Strip(cc, s) == s[a..a + |Strip(cc, s)|]
  {
    var left := StripLeft(cc, s);
    a := |s| - |left|;
    assert left == s[a..];
  }

  /** A string that neither starts nor ends with whitespace is its own strip. */
  lemma StripTrimmed(cc: CharClasses, s: string)
    requires s == [] || (!cc.isSpace(s[0]) && !cc.isSpace(s[|s| - 1]))
    ensures Strip(cc, s) == s
  {
  }

  /** Number of characters of `s` satisfying `p`. */
  function CountWhere(s: string, p: char -> bool): (n: nat)
    ensures n <= |s|
  {
    if s == [] then 0 else (if p(s[0]) then 1 else 0) + CountWhere(s[1..], p)
  }

  /** Some character of `s` belongs to `set` (`any(c in text for c in set)`). */
  predicate ContainsAny(s: string, chars: string) {
    exists i | 0 <= i < |s| :: s[i] in chars
  }

  /** `count / max(len, 1)` as an exact rational. */
  function Ratio(count: nat, len: nat): (r: real)
    requires count <= len
    ensures 0.0 <= r <= 1.0
    ensures r == 0.0 <==> count == 0
  {
    var d := if len == 0 then 1 else len;
    RatioBounds(count, d);
    count as real / d as real
  }

  lemma RatioBounds(count: nat, d: nat)
    requires 0 < d && count <= d
    ensures 0.0 <= count as real / d as real <= 1.0
    ensures count as real / d as real == 0.0 <==> count == 0
  {
    var q := count as real / d as real;
    assert q * d as real == count as real;
  }
}
