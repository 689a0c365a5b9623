/** `OCRProcessor._clean_text`: trims the text, masks characters outside an
    allow-list, collapses whitespace runs and applies a table of Turkish
    letter replacements. */
module TextCleaner {
  import opened Text

  /** The letters the allow-list names besides `\w`, `\s` and `\d` (with an
      ASCII capital `I`, not the dotted `İ`). */
  const TurkishAllowed: string := "äöüçğışÄÖÜÇĞIŞ"
  /** The punctuation the allow-list keeps. */
  const PunctuationAllowed: string := ".,-+()/:"

  /** Membership in the character class `[\w\säöüçğışÄÖÜÇĞIŞ\d\.\,\-\+\(\)\/\:]`. */
  predicate Allowed(cc: CharClasses, c: char) {
    || IsWord(cc, c)
    || cc.isSpace(c)
    || c in TurkishAllowed
    || cc.isDigit(c)
    || c in PunctuationAllowed
  }

  /** `re.sub(r'[^...]', ' ', text)`: every character outside the allow-list
      becomes one space. */
  function MaskDisallowed(cc: CharClasses, s: string): (r: string)
    ensures |r| == |s|
    ensures forall i | 0 <= i < |s| :: r[i] == (if Allowed(cc, s[i]) then s[i] else ' ')
  {
    seq(|s|, i requires 0 <= i < |s| => if Allowed(cc, s[i]) then s[i] else ' ')
  }

  /** Every whitespace character is a plain space and is not followed by
      another whitespace character. */
  predicate SingleSpaced(cc: CharClasses, s: string) {
    forall i | 0 <= i < |s| && cc.isSpace(s[i]) ::
      s[i] == ' ' && (i + 1 < |s| ==> !cc.isSpace(s[i + 1]))
  }

  /** `re.sub(r'\s+', ' ', text)`: each maximal whitespace run becomes one
      space. The result keeps the non-whitespace characters and is single
      spaced. */
  function CollapseWhitespace(cc: CharClasses, s: string): (r: string)
    ensures |r| <= |s|
    decreases |s|
  {
    if s == [] then []
    else if cc.isSpace(s[0]) then [' '] + CollapseWhitespace(cc, StripLeft(cc, s[1..]))
    else [s[0]] + CollapseWhitespace(cc, s[1..])
  }

  /** The non-whitespace characters of `s`, in order. */
  function NonSpace(cc: CharClasses, s: string): string
    decreases |s|
  {
    if s == [] then [] else (if cc.isSpace(s[0]) then [] else [s[0]]) + NonSpace(cc, s[1..])
  }

  lemma NonSpaceCons(cc: CharClasses, c: char, x: string)
    ensures NonSpace(cc, [c] + x) == (if cc.isSpace(c) then [] else [c]) + NonSpace(cc, x)
  {
    assert ([c] + x)[1..] == x;
  }

  /** Dropping leading whitespace keeps the non-whitespace characters. */
  lemma {:induction false} NonSpaceStripLeft(cc: CharClasses, s: string)
    ensures NonSpace(cc, StripLeft(cc, s)) == NonSpace(cc, s)
    decreases |s|
  {
    if s != [] && cc.isSpace(s[0]) {
      NonSpaceStripLeft(cc, s[1..]);
    }
  }

  /** Collapsing whitespace keeps every non-whitespace character, in order:
      only whitespace runs are rewritten. */
  lemma {:induction false} CollapseKeepsNonSpace(cc: CharClasses, s: string)
    requires cc.isSpace(' ')
    ensures NonSpace(cc, CollapseWhitespace(cc, s)) == NonSpace(cc, s)
    decreases |s|
  {
    if s != [] {
      if cc.isSpace(s[0]) {
        var rest := StripLeft(cc, s[1..]);
        CollapseKeepsNonSpace(cc, rest);
        NonSpaceStripLeft(cc, s[1..]);
        NonSpaceCons(cc, ' ', CollapseWhitespace(cc, rest));
      } else {
        CollapseKeepsNonSpace(cc, s[1..]);
        NonSpaceCons(cc, s[0], CollapseWhitespace(cc, s[1..]));
      }
    }
  }

  /** The collapse of a non-empty text is non-empty and starts with the
      text's first character, or with a space for a whitespace start. */
  lemma CollapseStart(cc: CharClasses, s: string)
    requires |s| > 0
    ensures var r := CollapseWhitespace(cc, s);
      |r| > 0 && r[0] == (if cc.isSpace(s[0]) then ' ' else s[0])
  {
  }

  /** Every character of the collapse is a space or a character of the
      input, so any property of the input's characters that also holds of
      `' '` holds of the collapse's. */
  lemma {:induction false} CollapseChars(cc: CharClasses, s: string, p: char -> bool)
    requires p(' ') && forall c | c in s :: p(c)
    ensures forall c | c in CollapseWhitespace(cc, s) :: p(c)
    decreases |s|
  {
    if s != [] {
      var rest := s[1..];
      if cc.isSpace(s[0]) {
        rest := StripLeft(cc, s[1..]);
        assert rest == s[1..][|s| - 1 - |rest|..];
      }
      assert forall c | c in rest :: c in s;
      CollapseChars(cc, rest, p);
      var r := CollapseWhitespace(cc, s);
      assert r == [r[0]] + CollapseWhitespace(cc, rest);
    }
  }

  /** The collapse is single spaced. */
  lemma {:induction false} CollapseSingle(cc: CharClasses, s: string)
    requires cc.isSpace(' ')
    ensures SingleSpaced(cc, CollapseWhitespace(cc, s))
    decreases |s|
  {
    if s != [] {
      var rest := if cc.isSpace(s[0]) then StripLeft(cc, s[1..]) else s[1..];
      CollapseSingle(cc, rest);
      var tail := CollapseWhitespace(cc, rest);
      var r := CollapseWhitespace(cc, s);
      assert r == [r[0]] + tail;
      if cc.isSpace(s[0]) && rest != [] {
        CollapseStart(cc, rest);
      }
      forall i | 0 <= i < |r| && cc.isSpace(r[i])
        ensures r[i] == ' ' && (i + 1 < |r| ==> !cc.isSpace(r[i + 1]))
      {
        if i > 0 {
          assert r[i] == tail[i - 1];
        }
        if i + 1 < |r| {
          assert r[i + 1] == tail[i];
        }
      }
    }
  }

  /** `text.replace(pattern, substitute)` for one-character `pattern` and `substitute`. */
  function ReplaceChar(s: string, pattern: char, substitute: char): (r: string)
    ensures |r| == |s|
    ensures forall i | 0 <= i < |s| :: r[i] == (if s[i] == pattern then substitute else s[i])
  {
    seq(|s|, i requires 0 <= i < |s| => if s[i] == pattern then substitute else s[i])
  }

  /** After `replace`, the pattern is gone unless it is its own substitute,
      and the text is unchanged exactly when the pattern did not occur or
      is replaced by itself. */
  lemma ReplaceCharEffect(s: string, pattern: char, substitute: char)
    ensures pattern != substitute ==> pattern !in ReplaceChar(s, pattern, substitute)
    ensures ReplaceChar(s, pattern, substitute) == s <==> (pattern !in s || pattern == substitute)
  {
    var r := ReplaceChar(s, pattern, substitute);
    if pattern in s && pattern != substitute {
      var i :| 0 <= i < |s| && s[i] == pattern;
      assert r[i] != s[i];
    }
  }

  /** The replacement dictionary, in its insertion (iteration) order. Every
      entry but `'I'` maps a letter to itself. */
  const Replacements: seq<(char, char)> := [
    ('ı', 'ı'), ('I', 'İ'), ('ş', 'ş'), ('Ş', 'Ş'),
    ('ğ', 'ğ'), ('Ğ', 'Ğ'), ('ü', 'ü'), ('Ü', 'Ü'),
    ('ö', 'ö'), ('Ö', 'Ö'), ('ç', 'ç'), ('Ç', 'Ç')
  ]

  /** What one character becomes after the entries of `table` are applied in order. */
  function ThroughTable(table: seq<(char, char)>, c: char): char
    decreases |table|
  {
    if table == [] then c
    else
      var d := ThroughTable(table[..|table| - 1], c);
      var (pattern, substitute) := table[|table| - 1];
      if d == pattern then substitute else d
  }

  /** `text.replace(pattern, substitute)` for each entry of `table`, in order. */
  function ApplyTable(table: seq<(char, char)>, s: string): (r: string)
    ensures |r| == |s|
    decreases |table|
  {
    if table == [] then s
    else
      var (pattern, substitute) := table[|table| - 1];
      ReplaceChar(ApplyTable(table[..|table| - 1], s), pattern, substitute)
  }

  /** Applying one more entry of the table is one more replacement. */
  lemma ApplyTableStep(table: seq<(char, char)>, k: nat, s: string)
    requires k < |table|
    ensures ApplyTable(table[..k + 1], s) == ReplaceChar(ApplyTable(table[..k], s), table[k].0, table[k].1)
    ensures k + 1 == |table| ==> ApplyTable(table[..k + 1], s) == ApplyTable(table, s)
  {
    assert table[..k + 1][..k] == table[..k];
    if k + 1 == |table| {
      assert table[..k + 1] == table;
    }
  }

  /** Applying the table replaces each character by what the table makes of it. */
  lemma {:induction false} ApplyTableAt(table: seq<(char, char)>, s: string)
    ensures forall i | 0 <= i < |s| :: ApplyTable(table, s)[i] == ThroughTable(table, s[i])
    decreases |table|
  {
    if table != [] {
      ApplyTableAt(table[..|table| - 1], s);
    }
  }

  /** Entries that map a character to itself change nothing. */
  lemma {:induction false} IdentityEntries(table: seq<(char, char)>, k: nat, c: char)
    requires k <= |table|
    requires forall j | k <= j < |table| :: table[j].0 == table[j].1
    ensures ThroughTable(table, c) == ThroughTable(table[..k], c)
    decreases |table|
  {
    if k < |table| {
      var front := table[..|table| - 1];
      assert front[..k] == table[..k];
      IdentityEntries(front, k, c);
    } else {
      assert table[..k] == table;
    }
  }

  /** The replacement table only turns `'I'` into `'İ'`. */
  lemma ReplacementsEffect(c: char)
    ensures ThroughTable(Replacements, c) == if c == 'I' then 'İ' else c
  {
    var t := Replacements;
    IdentityEntries(t, 2, c);
    var t1, t2 := t[..1], t[..2];
    assert t1[..0] == [] && t1[0] == ('ı', 'ı');
    assert ThroughTable(t1, c) == c;
    assert t2[..1] == t1 && t2[1] == ('I', 'İ');
    assert ThroughTable(t2, c) == if c == 'I' then 'İ' else c;
  }

  /** `_clean_text(text)`, as the specification of `CleanText`. */
  function Clean(cc: CharClasses, text: string): string {
    if text == [] then []
    else
      var masked := MaskDisallowed(cc, Strip(cc, text));
      Strip(cc, ApplyTable(Replacements, CollapseWhitespace(cc, masked)))
  }

  /** `_clean_text`: the replacement loop reassigns `text` once per table entry. */
  method CleanText(cc: CharClasses, text: string) returns (r: string)
    ensures r == Clean(cc, text)
  {
    if text == [] {
      return [];
    }
    var t := Strip(cc, text);
    t := MaskDisallowed(cc, t);
    t := CollapseWhitespace(cc, t);
    ghost var collapsed := t;
    for k := 0 to |Replacements|
      invariant t == ApplyTable(Replacements[..k], collapsed)
    {
      var (pattern, substitute) := Replacements[k];
      ApplyTableStep(Replacements, k, collapsed);
      t := ReplaceChar(t, pattern, substitute);
    }
    ApplyTableStep(Replacements, |Replacements| - 1, collapsed);
    r := Strip(cc, t);
  }

  /** The shape of every cleaned text: only allowed characters, no ASCII
      `'I'`, single plain spaces, and no whitespace at either end. */
  predicate IsClean(cc: CharClasses, s: string) {
    && (forall i | 0 <= i < |s| :: Allowed(cc, s[i]) && s[i] != 'I')
    && SingleSpaced(cc, s)
    && (s == [] || (!cc.isSpace(s[0]) && !cc.isSpace(s[|s| - 1])))
  }

  /** A contiguous piece of a single-spaced text is single spaced. */
  lemma SingleSpacedInfix(cc: CharClasses, s: string, a: nat, b: nat)
    requires a <= b <= |s| && SingleSpaced(cc, s)
    ensures SingleSpaced(cc, s[a..b])
  {
    forall i | 0 <= i < b - a && cc.isSpace(s[a..b][i])
      ensures s[a..b][i] == ' ' && (i + 1 < b - a ==> !cc.isSpace(s[a..b][i + 1]))
    {
      assert s[a..b][i] == s[a + i];
      if i + 1 < b - a {
        assert s[a..b][i + 1] == s[a + i + 1];
      }
    }
  }

  /** The table keeps a single-spaced text single spaced and removes every `'I'`. */
  lemma ReplacementsShape(cc: CharClasses, s: string)
    requires Sound(cc) && SingleSpaced(cc, s)
    ensures SingleSpaced(cc, ApplyTable(Replacements, s))
    ensures forall i | 0 <= i < |s| :: ApplyTable(Replacements, s)[i] != 'I'
    ensures forall i | 0 <= i < |s| ::
      ApplyTable(Replacements, s)[i] == s[i] || ApplyTable(Replacements, s)[i] == 'İ'
  {
    var r := ApplyTable(Replacements, s);
    ApplyTableAt(Replacements, s);
    forall i | 0 <= i < |s|
      ensures r[i] == (if s[i] == 'I' then 'İ' else s[i])
      ensures cc.isSpace(r[i]) <==> cc.isSpace(s[i])
    {
      ReplacementsEffect(s[i]);
    }
  }

  /** Collapsing whitespace keeps a text inside the allow-list. */
  lemma CollapseAllowed(cc: CharClasses, s: string)
    requires Sound(cc)
    requires forall i | 0 <= i < |s| :: Allowed(cc, s[i])
    ensures forall i | 0 <= i < |CollapseWhitespace(cc, s)| :: Allowed(cc, CollapseWhitespace(cc, s)[i])
  {
    CollapseChars(cc, s, c => Allowed(cc, c));
  }

  /** Every character of a strip is a character of the text, so stripping
      keeps any property all of the text's characters have. */
  lemma StripKeeps(cc: CharClasses, s: string, p: char -> bool)
    requires forall i | 0 <= i < |s| :: p(s[i])
    ensures forall i | 0 <= i < |Strip(cc, s)| :: p(Strip(cc, s)[i])
  {
    var a := StripSlice(cc, s);
    var r := Strip(cc, s);
    forall i | 0 <= i < |r| ensures p(r[i]) {
      assert r[i] == s[a + i];
    }
  }

  /** Stripping keeps a single-spaced text single spaced. */
  lemma StripSingleSpaced(cc: CharClasses, s: string)
    requires SingleSpaced(cc, s)
    ensures SingleSpaced(cc, Strip(cc, s))
  {
    var a := StripSlice(cc, s);
    SingleSpacedInfix(cc, s, a, a + |Strip(cc, s)|);
  }

  /** Before the final strip, the text holds only allowed characters, no
      `'I'`, and is single spaced. */
  lemma ReplacedShape(cc: CharClasses, masked: string)
    requires Sound(cc)
    requires forall i | 0 <= i < |masked| :: Allowed(cc, masked[i])
    ensures var replaced := ApplyTable(Replacements, CollapseWhitespace(cc, masked));
      && (forall i | 0 <= i < |replaced| :: Allowed(cc, replaced[i]) && replaced[i] != 'I')
      && SingleSpaced(cc, replaced)
  {
    var collapsed := CollapseWhitespace(cc, masked);
    CollapseAllowed(cc, masked);
    CollapseSingle(cc, masked);
    var replaced := ApplyTable(Replacements, collapsed);
    ReplacementsShape(cc, collapsed);
    forall i | 0 <= i < |replaced| ensures Allowed(cc, replaced[i]) && replaced[i] != 'I' {
      assert replaced[i] == collapsed[i] || replaced[i] == 'İ';
    }
  }

  /** Every output of `_clean_text` has the clean shape. */
  lemma CleanIsClean(cc: CharClasses, text: string)
    requires Sound(cc)
    ensures IsClean(cc, Clean(cc, text))
  {
    if text != [] {
      var masked := MaskDisallowed(cc, Strip(cc, text));
      MaskAllowed(cc, Strip(cc, text));
      MaskedIsClean(cc, masked);
    }
  }

  /** Masking leaves only allowed characters. */
  lemma MaskAllowed(cc: CharClasses, s: string)
    requires cc.isSpace(' ')
    ensures forall i | 0 <= i < |MaskDisallowed(cc, s)| :: Allowed(cc, MaskDisallowed(cc, s)[i])
  {
  }

  /** Masking leaves a text unchanged exactly when all of its characters
      are in the allow-list. */
  lemma MaskFixedPoint(cc: CharClasses, s: string)
    requires cc.isSpace(' ')
    ensures MaskDisallowed(cc, s) == s <==> forall i | 0 <= i < |s| :: Allowed(cc, s[i])
  {
    if MaskDisallowed(cc, s) == s {
      forall i | 0 <= i < |s| ensures Allowed(cc, s[i]) {
        assert MaskDisallowed(cc, s)[i] == s[i];
      }
    }
  }

  /** Collapsing, replacing and stripping an allowed text gives a clean one. */
  lemma MaskedIsClean(cc: CharClasses, masked: string)
    requires Sound(cc)
    requires forall i | 0 <= i < |masked| :: Allowed(cc, masked[i])
    ensures IsClean(cc, Strip(cc, ApplyTable(Replacements, CollapseWhitespace(cc, masked))))
  {
    ReplacedShape(cc, masked);
    StripIsClean(cc, ApplyTable(Replacements, CollapseWhitespace(cc, masked)));
  }

  lemma StripIsClean(cc: CharClasses, s: string)
    requires forall i | 0 <= i < |s| :: Allowed(cc, s[i]) && s[i] != 'I'
    requires SingleSpaced(cc, s)
    ensures IsClean(cc, Strip(cc, s))
  {
    StripKeeps(cc, s, c => Allowed(cc, c) && c != 'I');
    StripSingleSpaced(cc, s);
    StripShape(cc, s);
  }

  /** A single-spaced text is its own whitespace collapse. */
  lemma {:induction false} CollapseSingleSpaced(cc: CharClasses, s: string)
    requires SingleSpaced(cc, s)
    ensures CollapseWhitespace(cc, s) == s
    decreases |s|
  {
    if s != [] {
      var t := s[1..];
      SingleSpacedInfix(cc, s, 1, |s|);
      CollapseSingleSpaced(cc, t);
      if cc.isSpace(s[0]) {
        assert s[0] == ' ';
        assert t == [] || !cc.isSpace(t[0]) by {
          if t != [] {
            assert t[0] == s[1];
          }
        }
        assert StripLeft(cc, t) == t;
      }
      assert s == [s[0]] + t;
    }
  }

  /** The clean texts are exactly the fixed points of `_clean_text`. */
  lemma CleanFixedPoint(cc: CharClasses, s: string)
    requires Sound(cc)
    ensures Clean(cc, s) == s <==> IsClean(cc, s)
  {
    if IsClean(cc, s) && s != [] {
      StripTrimmed(cc, s);
      assert MaskDisallowed(cc, s) == s;
      CollapseSingleSpaced(cc, s);
      ApplyTableAt(Replacements, s);
      forall i | 0 <= i < |s| ensures ApplyTable(Replacements, s)[i] == s[i] {
        ReplacementsEffect(s[i]);
      }
      assert ApplyTable(Replacements, s) == s;
      StripTrimmed(cc, s);
    }
    if Clean(cc, s) == s {
      CleanIsClean(cc, s);
    }
  }

  /** `_clean_text` is idempotent. */
  lemma CleanIdempotent(cc: CharClasses, s: string)
    requires Sound(cc)
    ensures Clean(cc, Clean(cc, s)) == Clean(cc, s)
  {
    CleanIsClean(cc, s);
    CleanFixedPoint(cc, Clean(cc, s));
  }

  /** An empty or all-whitespace text cleans to `""`. */
  lemma CleanBlank(cc: CharClasses, s: string)
    requires IsBlank(cc, s)
    ensures Clean(cc, s) == []
  {
    StripShape(cc, s);
  }
}
