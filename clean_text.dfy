/** The query normaliser of the chat backend (`clean_text` in backend/app.py).
    A query is lower-cased, every character outside [a-zA-Z0-9\s] is deleted,
    whitespace runs become one space, the ends are trimmed, and stop words are
    dropped from the space-separated words. */
module TextCleaning {
  import opened Common

  /** The argument of `clean_text`: a Python `str`, or any other value
      (None, a NaN cell of the data set, ...). */
  datatype Value = Str(s: string) | NonString

  /** Python's `str.isspace()`, which the regex class `\s`, `str.strip()` and
      `str.split()` all use. */
  predicate IsSpace(c: char) {
    var n := c as int;
    9 <= n <= 13 || 28 <= n <= 32 || n == 0x85 || n == 0xA0 || n == 0x1680
    || 0x2000 <= n <= 0x200A || n == 0x2028 || n == 0x2029 || n == 0x202F
    || n == 0x205F || n == 0x3000
  }

  predicate IsUpper(c: char) { 'A' <= c <= 'Z' }

  /** A character that can appear inside a word of cleaned text. */
  predicate IsWordChar(c: char) { 'a' <= c <= 'z' || '0' <= c <= '9' }

  /** The regex character class `[a-zA-Z0-9\s]`. */
  predicate IsKept(c: char) { IsUpper(c) || IsWordChar(c) || IsSpace(c) }

  /** The alphabet of cleaned text. */
  predicate IsPlain(c: char) { IsWordChar(c) || c == ' ' }

  /** Printable ASCII punctuation. */
  predicate IsAsciiPunct(c: char) {
    '!' <= c <= '/' || ':' <= c <= '@' || '[' <= c <= '`' || '{' <= c <= '~'
  }

  /** A character that lower-casing leaves as it is. */
  predicate IsLowerFixed(c: char) {
    !IsUpper(c) && c as int != 0x212A && c as int != 0x130
  }

  ghost predicate AllPlain(s: string) {
    forall i :: 0 <= i < |s| ==> IsPlain(s[i])
  }

  /** Two spaces at positions i and i + 1. */
  ghost predicate DoubleSpaceAt(s: string, i: int) {
    0 <= i && i + 1 < |s| && s[i] == ' ' && s[i + 1] == ' '
  }

  /** No two spaces next to each other. */
  ghost predicate NoDoubleSpace(s: string) {
    forall i :: !DoubleSpaceAt(s, i)
  }

  /** The shape of a cleaned query: words of [a-z0-9] separated by single
      spaces, nothing at either end. */
  ghost predicate IsCanonical(s: string) {
    AllPlain(s) && NoDoubleSpace(s) && (|s| > 0 ==> s[0] != ' ' && s[|s| - 1] != ' ')
  }

  /** A non-empty run of characters without whitespace. */
  ghost predicate IsToken(w: string) {
    |w| > 0 && forall i :: 0 <= i < |w| ==> !IsSpace(w[i])
  }

  /** A word of cleaned text. */
  ghost predicate IsWord(w: string) {
    |w| > 0 && forall i :: 0 <= i < |w| ==> IsWordChar(w[i])
  }

  // ---------------------------------------------------------------------------
  // text.lower()

  /** Python's lower-casing of one character, as far as it matters for the
      characters the next step keeps: A-Z map to a-z, the Kelvin sign U+212A
      maps to "k" and U+0130 to "i" followed by U+0307. Every other character is
      left as it is; where Python would lower-case it, both the character and
      its lower-case form lie outside [a-zA-Z0-9\s] and are deleted next. */
  function LowerChar(c: char): (r: string)
    ensures forall i :: 0 <= i < |r| ==> !IsUpper(r[i])
    ensures IsUpper(c) ==> r == [(c as int + 32) as char]
    ensures c as int == 0x212A ==> r == "k"
    ensures c as int == 0x130 ==> r == ['i', 0x307 as char]
    ensures IsLowerFixed(c) <==> r == [c]
  {
    if IsUpper(c) then [(c as int + 32) as char]
    else if c as int == 0x212A then "k"
    else if c as int == 0x130 then ['i', 0x307 as char]
    else [c]
  }

  function Lower(s: string): (r: string)
    ensures forall i :: 0 <= i < |r| ==> !IsUpper(r[i])
    ensures (forall i :: 0 <= i < |s| ==> IsLowerFixed(s[i])) ==> r == s
  {
    if s == [] then [] else LowerChar(s[0]) + Lower(s[1..])
  }

  /** Lower-casing a single character is LowerChar. */
  lemma LowerOne(c: char)
    ensures Lower([c]) == LowerChar(c)
  {
    assert [c][1..] == [];
  }

  /** Lower-casing works character by character: it distributes over concatenation. */
  lemma {:induction false} LowerAppend(a: string, b: string)
    ensures Lower(a + b) == Lower(a) + Lower(b)
  {
    if a == [] {
      assert a + b == b;
    } else {
      var c, rest := a[0], a[1..];
      assert Lower(rest + b) == Lower(rest) + Lower(b) by { LowerAppend(rest, b); }
      assert a + b == [c] + (rest + b) by {
        assert a == [c] + rest;
        AppendAssoc([c], rest, b);
      }
      assert Lower(a + b) == LowerChar(c) + (Lower(rest) + Lower(b));
      assert Lower(a) == LowerChar(c) + Lower(rest);
      AppendAssoc(LowerChar(c), Lower(rest), Lower(b));
    }
  }

  // ---------------------------------------------------------------------------
  // re.sub(r'[^a-zA-Z0-9\s]', '', text)

  /** Deletes exactly the characters outside [a-zA-Z0-9\s]. */
  function Filter(s: string): (r: string)
    ensures forall i :: 0 <= i < |r| ==> IsKept(r[i]) && r[i] in s
    ensures forall i :: 0 <= i < |s| && IsKept(s[i]) ==> s[i] in r
    ensures (forall i :: 0 <= i < |s| ==> IsKept(s[i])) ==> r == s
  {
    if s == [] then []
    else if IsKept(s[0]) then [s[0]] + Filter(s[1..])
    else Filter(s[1..])
  }

  /** Deleting characters works character by character: the filter distributes
      over concatenation. */
  lemma {:induction false} FilterAppend(a: string, b: string)
    ensures Filter(a + b) == Filter(a) + Filter(b)
  {
    if a == [] {
      assert a + b == b;
    } else {
      var c, rest := a[0], a[1..];
      assert Filter(rest + b) == Filter(rest) + Filter(b) by { FilterAppend(rest, b); }
      assert a + b == [c] + (rest + b) by {
        assert a == [c] + rest;
        AppendAssoc([c], rest, b);
      }
      if IsKept(c) {
        assert Filter(a + b) == [c] + (Filter(rest) + Filter(b));
        assert Filter(a) == [c] + Filter(rest);
        AppendAssoc([c], Filter(rest), Filter(b));
      } else {
        assert Filter(a + b) == Filter(rest) + Filter(b);
        assert Filter(a) == Filter(rest);
      }
    }
  }

  /** The characters that survive the filter keep their order. */
  lemma {:induction false} FilterIsSubsequence(s: string)
    ensures IsSubsequence(Filter(s), s)
  {
    if s != [] {
      FilterIsSubsequence(s[1..]);
      if IsKept(s[0]) {
        assert ([s[0]] + Filter(s[1..]))[1..] == Filter(s[1..]);
      }
    }
  }

  // ---------------------------------------------------------------------------
  // re.sub(r'\s+', ' ', text)

  /** Every maximal run of whitespace becomes one ' '. */
  function Collapse(s: string): (r: string)
    ensures forall i :: 0 <= i < |r| ==> r[i] == ' ' || (r[i] in s && !IsSpace(r[i]))
    ensures NoDoubleSpace(r)
    ensures |s| > 0 ==> |r| > 0 && (r[0] == ' ' <==> IsSpace(s[0]))
  {
    if s == [] then []
    else if IsSpace(s[0]) then
      if |s| > 1 && IsSpace(s[1]) then Collapse(s[1..])
      else
        var rest := Collapse(s[1..]);
        NoDoubleSpaceConcat([' '], rest);
        [' '] + rest
    else
      var rest := Collapse(s[1..]);
      NoDoubleSpaceConcat([s[0]], rest);
      [s[0]] + rest
  }

  /** Text already made of single spaces between plain characters is left as it is. */
  lemma {:induction false} CollapseUnchanged(s: string)
    requires AllPlain(s) && NoDoubleSpace(s)
    ensures Collapse(s) == s
  {
    if s != [] {
      var t := s[1..];
      assert AllPlain(t) by {
        forall i | 0 <= i < |t| ensures IsPlain(t[i]) { assert t[i] == s[i + 1]; }
      }
      NoDoubleSpaceDrop(s, 1);
      CollapseUnchanged(t);
      if |s| > 1 {
        assert !DoubleSpaceAt(s, 0);
        assert s[1] == t[0];
      }
      CollapseCons(s[0], t);
      assert s == [s[0]] + t;
    }
  }

  /** The collapse ends with a space exactly when the text ends with whitespace. */
  lemma {:induction false} CollapseLast(s: string)
    requires |s| > 0
    ensures |Collapse(s)| > 0 && (Collapse(s)[|Collapse(s)| - 1] == ' ' <==> IsSpace(s[|s| - 1]))
  {
    var t := s[1..];
    if t != [] {
      CollapseLast(t);
      assert s[|s| - 1] == t[|t| - 1];
    }
  }

  /** One plain character in front of plain text, without making a double space. */
  lemma CollapseCons(c: char, t: string)
    requires IsPlain(c) && (t != [] ==> IsPlain(t[0]) && !(c == ' ' && t[0] == ' '))
    ensures Collapse([c] + t) == [c] + Collapse(t)
  {
    assert ([c] + t)[1..] == t;
  }

  // ---------------------------------------------------------------------------
  // .strip()

  /** The number of whitespace characters `str.lstrip()` removes. */
  function LeadingSpace(s: string): (n: nat)
    ensures n <= |s|
    ensures n < |s| ==> !IsSpace(s[n])
  {
    if s != [] && IsSpace(s[0]) then 1 + LeadingSpace(s[1..]) else 0
  }

  /** `lstrip()` removes only whitespace. */
  lemma {:induction false} LeadingSpaceIsSpace(s: string)
    ensures forall i :: 0 <= i < LeadingSpace(s) ==> IsSpace(s[i])
  {
    if s != [] && IsSpace(s[0]) {
      LeadingSpaceIsSpace(s[1..]);
      forall i | 0 <= i < LeadingSpace(s) ensures IsSpace(s[i]) {
        if i > 0 { assert s[i] == s[1..][i - 1]; }
      }
    }
  }

  /** The number of whitespace characters `str.rstrip()` removes. */
  function TrailingSpace(s: string): (n: nat)
    ensures n <= |s|
    ensures n < |s| ==> !IsSpace(s[|s| - 1 - n])
  {
    if s != [] && IsSpace(s[|s| - 1]) then 1 + TrailingSpace(s[..|s| - 1]) else 0
  }

  /** `rstrip()` removes only whitespace. */
  lemma {:induction false} TrailingSpaceIsSpace(s: string)
    ensures forall i :: |s| - TrailingSpace(s) <= i < |s| ==> IsSpace(s[i])
  {
    if s != [] && IsSpace(s[|s| - 1]) {
      var t := s[..|s| - 1];
      TrailingSpaceIsSpace(t);
      forall i | |s| - TrailingSpace(s) <= i < |s| ensures IsSpace(s[i]) {
        if i < |s| - 1 { assert s[i] == t[i]; }
      }
    }
  }

  /** `str.lstrip()`: what follows the leading whitespace. */
  function StripLeft(s: string): (r: string)
    ensures r != [] ==> !IsSpace(r[0])
    ensures (forall i :: 0 <= i < |s| ==> IsSpace(s[i])) ==> r == []
  {
    s[LeadingSpace(s)..]
  }

  /** `str.rstrip()`: what precedes the trailing whitespace. */
  function StripRight(s: string): (r: string)
    ensures r != [] ==> !IsSpace(r[|r| - 1])
  {
    s[..|s| - TrailingSpace(s)]
  }

  /** `str.strip()`: the slice left after dropping whitespace at both ends. */
  function Strip(s: string): (r: string)
    ensures |r| <= |s|
    ensures AllPlain(s) ==> AllPlain(r)
    ensures NoDoubleSpace(s) ==> NoDoubleSpace(r)
    ensures r != [] ==> !IsSpace(r[0]) && !IsSpace(r[|r| - 1])
    ensures (forall i :: 0 <= i < |s| ==> IsSpace(s[i])) ==> r == []
  {
    StripKeepsPlain(s);
    StripKeepsSpacing(s);
    StripEnds(s);
    StripRight(StripLeft(s))
  }

  /** Stripping keeps plain text plain. */
  lemma StripKeepsPlain(s: string)
    ensures AllPlain(s) ==> AllPlain(StripRight(StripLeft(s)))
  {
    var left := StripLeft(s);
    PlainSlice(s, LeadingSpace(s), |s|);
    assert left == s[LeadingSpace(s)..|s|];
    PlainSlice(left, 0, |left| - TrailingSpace(left));
    assert StripRight(left) == left[0..|left| - TrailingSpace(left)];
  }

  /** Stripping cannot bring two spaces together. */
  lemma StripKeepsSpacing(s: string)
    ensures NoDoubleSpace(s) ==> NoDoubleSpace(StripRight(StripLeft(s)))
  {
    var left := StripLeft(s);
    NoDoubleSpaceDrop(s, LeadingSpace(s));
    NoDoubleSpaceTake(left, |left| - TrailingSpace(left));
  }

  /** What stripping leaves starts and ends with non-whitespace. */
  lemma StripEnds(s: string)
    ensures StripRight(StripLeft(s)) != [] ==>
      !IsSpace(StripRight(StripLeft(s))[0]) && !IsSpace(StripRight(StripLeft(s))[|StripRight(StripLeft(s))| - 1])
  {
    var left := StripLeft(s);
    var r := StripRight(left);
    assert r != [] ==> r[0] == left[0];
  }

  /** A string without whitespace at either end is its own strip. */
  lemma StripUnchanged(s: string)
    requires |s| > 0 ==> !IsSpace(s[0]) && !IsSpace(s[|s| - 1])
    ensures Strip(s) == s
  {
    assert LeadingSpace(s) == 0;
    assert StripLeft(s) == s;
    assert TrailingSpace(s) == 0;
    assert StripRight(s) == s;
  }

  /** A slice of plain text is plain. */
  lemma PlainSlice(s: string, a: nat, b: nat)
    requires a <= b <= |s|
    ensures AllPlain(s) ==> AllPlain(s[a..b])
  {
    if AllPlain(s) {
      forall i | 0 <= i < b - a ensures IsPlain(s[a..b][i]) {
        assert s[a..b][i] == s[a + i];
      }
    }
  }

  /** Dropping a prefix cannot bring two spaces together. */
  lemma NoDoubleSpaceDrop(s: string, a: nat)
    requires a <= |s|
    ensures NoDoubleSpace(s) ==> NoDoubleSpace(s[a..])
  {
    if NoDoubleSpace(s) {
      forall i ensures !DoubleSpaceAt(s[a..], i) {
        if 0 <= i && i + 1 < |s| - a {
          assert !DoubleSpaceAt(s, a + i);
        }
      }
    }
  }

  /** Taking a prefix cannot bring two spaces together. */
  lemma NoDoubleSpaceTake(s: string, b: nat)
    requires b <= |s|
    ensures NoDoubleSpace(s) ==> NoDoubleSpace(s[..b])
  {
    if NoDoubleSpace(s) {
      forall i ensures !DoubleSpaceAt(s[..b], i) {
        if 0 <= i && i + 1 < b {
          assert !DoubleSpaceAt(s, i);
        }
      }
    }
  }

  /** Two strings without double spaces, not both spaces where they meet. */
  lemma NoDoubleSpaceConcat(a: string, b: string)
    requires NoDoubleSpace(a) && NoDoubleSpace(b)
    requires |a| > 0 && |b| > 0 ==> a[|a| - 1] != ' ' || b[0] != ' '
    ensures NoDoubleSpace(a + b)
  {
    forall i ensures !DoubleSpaceAt(a + b, i) {
      if 0 <= i && i + 1 < |a + b| {
        if i + 1 < |a| {
          assert (a + b)[i] == a[i] && (a + b)[i + 1] == a[i + 1];
          assert !DoubleSpaceAt(a, i);
        } else if i + 1 == |a| {
          assert (a + b)[i] == a[|a| - 1] && (a + b)[i + 1] == b[0];
        } else {
          assert (a + b)[i] == b[i - |a|] && (a + b)[i + 1] == b[i - |a| + 1];
          assert !DoubleSpaceAt(b, i - |a|);
        }
      }
    }
  }

  // ---------------------------------------------------------------------------
  // lines 37-39 together

  /** The text after lower-casing, filtering, collapsing and stripping. */
  function Normalize(s: string): (r: string)
    ensures IsCanonical(r)
    ensures IsCanonical(s) ==> r == s
    ensures Split(r) == Split(Filter(Lower(s)))
  {
    NormalizeShape(s);
    NormalizeWords(s);
    Strip(Collapse(Filter(Lower(s))))
  }

  /** Lines 37-39 produce a canonical string and leave one unchanged. */
  lemma NormalizeShape(s: string)
    ensures IsCanonical(Strip(Collapse(Filter(Lower(s)))))
    ensures IsCanonical(s) ==> Strip(Collapse(Filter(Lower(s)))) == s
  {
    var filtered := Filter(Lower(s));
    var collapsed := Collapse(filtered);
    assert forall i :: 0 <= i < |filtered| ==> IsSpace(filtered[i]) || IsWordChar(filtered[i]) by {
      FilterLowerChars(s);
    }
    assert AllPlain(collapsed) by { CollapsePlain(filtered); }
    if IsCanonical(s) {
      assert Lower(s) == s;
      assert filtered == s;
      assert collapsed == s by { CollapseUnchanged(s); }
      StripUnchanged(s);
    }
  }

  /** After lower-casing and filtering only whitespace and [a-z0-9] are left. */
  lemma FilterLowerChars(s: string)
    ensures forall i :: 0 <= i < |Filter(Lower(s))| ==>
      IsSpace(Filter(Lower(s))[i]) || IsWordChar(Filter(Lower(s))[i])
  {
    var lowered := Lower(s);
    var filtered := Filter(lowered);
    forall i | 0 <= i < |filtered| ensures IsSpace(filtered[i]) || IsWordChar(filtered[i]) {
      var k :| 0 <= k < |lowered| && lowered[k] == filtered[i];
    }
  }

  /** Collapsing whitespace in text of whitespace and [a-z0-9] gives plain text. */
  lemma CollapsePlain(f: string)
    requires forall i :: 0 <= i < |f| ==> IsSpace(f[i]) || IsWordChar(f[i])
    ensures AllPlain(Collapse(f))
  {
    var c := Collapse(f);
    forall i | 0 <= i < |c| ensures IsPlain(c[i]) {
      if c[i] != ' ' {
        var k :| 0 <= k < |f| && f[k] == c[i];
      }
    }
  }

  // ---------------------------------------------------------------------------
  // text.split() and ' '.join(...)

  /** The longest prefix without whitespace. */
  function TakeToken(s: string): (r: string)
    ensures |r| <= |s| && r == s[..|r|]
    ensures forall i :: 0 <= i < |r| ==> !IsSpace(s[i])
    ensures |r| < |s| ==> IsSpace(s[|r|])
    ensures s != [] && !IsSpace(s[0]) ==> |r| > 0
  {
    if s == [] || IsSpace(s[0]) then [] else [s[0]] + TakeToken(s[1..])
  }

  /** `str.split()` with no separator: the maximal whitespace-free runs. */
  function Split(s: string): (r: seq<string>)
    ensures forall k :: 0 <= k < |r| ==> IsToken(r[k])
    decreases |s|
  {
    var t := StripLeft(s);
    if t == [] then []
    else
      var w := TakeToken(t);
      var rest := Split(t[|w|..]);
      assert IsToken(w) by {
        assert forall i :: 0 <= i < |w| ==> w[i] == t[i];
      }
      TokensCons(w, rest);
      [w] + rest
  }

  /** A token in front of tokens. */
  lemma TokensCons(w: string, ws: seq<string>)
    requires IsToken(w) && forall k :: 0 <= k < |ws| ==> IsToken(ws[k])
    ensures forall k :: 0 <= k < |[w] + ws| ==> IsToken(([w] + ws)[k])
  {
    forall k | 0 <= k < |[w] + ws| ensures IsToken(([w] + ws)[k]) {
      if k > 0 { assert ([w] + ws)[k] == ws[k - 1]; }
    }
  }

  /** `" ".join(ws)`. */
  function Join(ws: seq<string>): string {
    if ws == [] then ""
    else if |ws| == 1 then ws[0]
    else ws[0] + " " + Join(ws[1..])
  }

  /** `[word for word in ws if word not in stop_words]`. */
  function Keep(ws: seq<string>, stopWords: set<string>): (r: seq<string>)
    ensures forall w :: w in r <==> w in ws && w !in stopWords
    ensures (forall w :: w in ws ==> w !in stopWords) ==> r == ws
  {
    if ws == [] then []
    else if ws[0] in stopWords then Keep(ws[1..], stopWords)
    else [ws[0]] + Keep(ws[1..], stopWords)
  }

  /** Every occurrence of a word that is not a stop word is kept, and no
      occurrence of a stop word. */
  lemma {:induction false} KeepCounts(ws: seq<string>, stopWords: set<string>)
    ensures forall w :: multiset(Keep(ws, stopWords))[w] == if w in stopWords then 0 else multiset(ws)[w]
  {
    if ws != [] {
      KeepCounts(ws[1..], stopWords);
      assert ws == [ws[0]] + ws[1..];
      assert multiset(ws) == multiset([ws[0]]) + multiset(ws[1..]);
      if ws[0] !in stopWords {
        assert multiset(Keep(ws, stopWords)) == multiset([ws[0]]) + multiset(Keep(ws[1..], stopWords));
      }
    }
  }

  /** `clean_text(text)` with the stop-word set as a parameter. */
  function CleanText(v: Value, stopWords: set<string>): (r: string)
    ensures v.NonString? ==> r == ""
    ensures IsCanonical(r)
  {
    match v
    case NonString => ""
    case Str(s) =>
      var ws := Split(Normalize(s));
      assert forall k :: 0 <= k < |ws| ==> IsWord(ws[k]) by { SplitPlain(Normalize(s)); }
      assert IsCanonical(Join(Keep(ws, stopWords))) by { KeptJoinCanonical(ws, stopWords); }
      Join(Keep(ws, stopWords))
  }

  // ---------------------------------------------------------------------------
  // Properties of split and join

  /** The first token of a string that starts with one. */
  lemma {:induction false} TakeTokenWhole(w: string, rest: string)
    requires forall i :: 0 <= i < |w| ==> !IsSpace(w[i])
    requires rest == [] || IsSpace(rest[0])
    ensures TakeToken(w + rest) == w
  {
    if w == [] {
      assert w + rest == rest;
    } else {
      assert (w + rest)[0] == w[0];
      assert (w + rest)[1..] == w[1..] + rest;
      TakeTokenWhole(w[1..], rest);
    }
  }

  /** Every token of a string of plain characters is a word. */
  lemma {:induction false} SplitPlain(s: string)
    requires AllPlain(s)
    ensures forall k :: 0 <= k < |Split(s)| ==> IsWord(Split(s)[k])
    decreases |s|
  {
    var t := StripLeft(s);
    if t != [] {
      var w := TakeToken(t);
      var u := t[|w|..];
      assert AllPlain(u) && IsWord(w) by { PlainPieces(s, t, w); }
      SplitPlain(u);
      assert Split(s) == [w] + Split(u) by { SplitUnfold(s); }
      WordsCons(w, Split(u));
    }
  }

  /** The pieces SplitPlain works on: the rest after a token, and the token. */
  lemma PlainPieces(s: string, t: string, w: string)
    requires AllPlain(s) && t == StripLeft(s) && t != [] && w == TakeToken(t)
    ensures AllPlain(t[|w|..]) && IsWord(w)
  {
    var a := |s| - |t|;
    forall i | 0 <= i < |t| ensures IsPlain(t[i]) {
      assert t[i] == s[a + i];
    }
    forall i | 0 <= i < |t| - |w| ensures IsPlain(t[|w|..][i]) {
      assert t[|w|..][i] == t[|w| + i];
    }
    forall i | 0 <= i < |w| ensures IsWordChar(w[i]) {
      assert w[i] == t[i];
    }
  }

  /** One step of Split on a string with a word in it. */
  lemma SplitUnfold(s: string)
    requires StripLeft(s) != []
    ensures Split(s) == [TakeToken(StripLeft(s))] + Split(StripLeft(s)[|TakeToken(StripLeft(s))|..])
  {
  }

  /** A word in front of words. */
  lemma WordsCons(w: string, ws: seq<string>)
    requires IsWord(w) && forall k :: 0 <= k < |ws| ==> IsWord(ws[k])
    ensures forall k :: 0 <= k < |[w] + ws| ==> IsWord(([w] + ws)[k])
  {
    forall k | 0 <= k < |[w] + ws| ensures IsWord(([w] + ws)[k]) {
      if k > 0 { assert ([w] + ws)[k] == ws[k - 1]; }
    }
  }

  /** Keeping some of a list of words keeps words, and joining them gives a
      canonical string. */
  lemma KeptJoinCanonical(ws: seq<string>, stopWords: set<string>)
    requires forall k :: 0 <= k < |ws| ==> IsWord(ws[k])
    ensures forall k :: 0 <= k < |Keep(ws, stopWords)| ==> IsWord(Keep(ws, stopWords)[k])
    ensures IsCanonical(Join(Keep(ws, stopWords)))
  {
    var r := Keep(ws, stopWords);
    forall k | 0 <= k < |r| ensures IsWord(r[k]) {
      assert r[k] in r;
      var m :| 0 <= m < |ws| && ws[m] == r[k];
    }
    JoinCanonical(r);
  }

  /** Leading whitespace does not change the words. */
  lemma SplitSkipsSpace(c: char, s: string)
    requires IsSpace(c)
    ensures Split([c] + s) == Split(s)
  {
    assert ([c] + s)[1..] == s;
    assert StripLeft([c] + s) == StripLeft(s);
  }

  /** A string that starts with a token splits into that token and the words after it. */
  lemma SplitToken(w: string, rest: string)
    requires IsToken(w)
    requires rest == [] || IsSpace(rest[0])
    ensures Split(w + rest) == [w] + Split(rest)
  {
    var s := w + rest;
    assert s[0] == w[0];
    assert StripLeft(s) == s;
    TakeTokenWhole(w, rest);
    assert s[|w|..] == rest;
  }

  /** A lone token splits into itself. */
  lemma SplitOneToken(w: string)
    requires IsToken(w)
    ensures Split(w) == [w]
  {
    assert Split(w + []) == [w] + Split([]) by { SplitToken(w, []); }
    assert w + [] == w;
  }

  /** A token, one space, then more text: the token and the words of the rest. */
  lemma SplitTokenSpace(w: string, tail: string)
    requires IsToken(w)
    ensures Split(w + ([' '] + tail)) == [w] + Split(tail)
  {
    assert Split(w + ([' '] + tail)) == [w] + Split([' '] + tail) by { SplitToken(w, [' '] + tail); }
    assert Split([' '] + tail) == Split(tail) by { SplitSkipsSpace(' ', tail); }
  }

  /** Join puts a word's first character first. */
  lemma JoinHead(ws: seq<string>)
    requires |ws| > 0 && ws[0] != []
    ensures |Join(ws)| > 0 && Join(ws)[0] == ws[0][0]
  {
  }

  /** Splitting joined tokens gives the tokens back. */
  lemma {:induction false} SplitJoin(ws: seq<string>)
    requires forall k :: 0 <= k < |ws| ==> IsToken(ws[k])
    ensures Split(Join(ws)) == ws
  {
    if |ws| == 1 {
      SplitOneToken(ws[0]);
    } else if |ws| > 1 {
      SplitJoin(ws[1..]);
      SplitJoinStep(ws[0], ws[1..]);
    }
  }

  /** The inductive step of SplitJoin: one more token in front. */
  lemma SplitJoinStep(w: string, rest: seq<string>)
    requires |rest| > 0 && IsToken(w)
    requires Split(Join(rest)) == rest
    ensures Split(Join([w] + rest)) == [w] + rest
  {
    var tail := Join(rest);
    assert Join([w] + rest) == w + ([' '] + tail) by { JoinCons(w, rest); }
    assert Split(w + ([' '] + tail)) == [w] + Split(tail) by { SplitTokenSpace(w, tail); }
  }

  /** Join of one more word in front. */
  lemma JoinCons(w: string, rest: seq<string>)
    requires |rest| > 0
    ensures Join([w] + rest) == w + ([' '] + Join(rest))
  {
    var ws := [w] + rest;
    assert ws[0] == w && ws[1..] == rest;
    assert Join(ws) == w + " " + Join(rest);
    AppendAssoc(w, " ", Join(rest));
  }

  /** Joining words gives a canonical string. */
  lemma {:induction false} JoinCanonical(ws: seq<string>)
    requires forall k :: 0 <= k < |ws| ==> IsWord(ws[k])
    ensures IsCanonical(Join(ws))
  {
    if ws != [] {
      var w := ws[0];
      assert NoDoubleSpace(w);
      if |ws| > 1 {
        var tail := Join(ws[1..]);
        JoinCanonical(ws[1..]);
        JoinHead(ws[1..]);
        NoDoubleSpaceConcat(w, " ");
        NoDoubleSpaceConcat(w + " ", tail);
        assert Join(ws) == w + " " + tail;
      }
    }
  }

  // ---------------------------------------------------------------------------
  // The words survive the collapse and the strip

  /** A character that is not whitespace in front of text: a token of its own
      when the text is empty or starts with whitespace, else glued to the
      first token. */
  lemma SplitConsChar(c: char, x: string)
    requires !IsSpace(c)
    ensures x == [] || IsSpace(x[0]) ==> Split([c] + x) == [[c]] + Split(x)
    ensures x != [] && !IsSpace(x[0]) ==>
      |Split(x)| > 0 && Split([c] + x) == [[c] + Split(x)[0]] + Split(x)[1..]
  {
    if x == [] || IsSpace(x[0]) {
      SplitToken([c], x);
    } else {
      SplitGlue(c, x);
    }
  }

  /** A character that is not whitespace, glued to the first token of the text. */
  lemma SplitGlue(c: char, x: string)
    requires !IsSpace(c) && x != [] && !IsSpace(x[0])
    ensures |Split(x)| > 0 && Split([c] + x) == [[c] + Split(x)[0]] + Split(x)[1..]
  {
    var w := TakeToken(x);
    var rest := x[|w|..];
    FirstToken(x);
    assert Split(x) == [w] + Split(rest) by { SplitToken(w, rest); }
    TokenCons(c, w);
    assert [c] + x == ([c] + w) + rest by { AppendAssoc([c], w, rest); }
    SplitToken([c] + w, rest);
  }

  /** Text that starts with a token is that token and a rest that starts with whitespace. */
  lemma FirstToken(x: string)
    requires x != [] && !IsSpace(x[0])
    ensures IsToken(TakeToken(x)) && x == TakeToken(x) + x[|TakeToken(x)|..]
    ensures x[|TakeToken(x)|..] == [] || IsSpace(x[|TakeToken(x)|..][0])
  {
    var w := TakeToken(x);
    forall i | 0 <= i < |w| ensures !IsSpace(w[i]) { assert w[i] == x[i]; }
    if |w| < |x| { assert x[|w|..][0] == x[|w|]; }
  }

  /** A character that is not whitespace in front of a token is a token. */
  lemma TokenCons(c: char, w: string)
    requires !IsSpace(c) && IsToken(w)
    ensures IsToken([c] + w)
  {
    forall i | 0 <= i < |[c] + w| ensures !IsSpace(([c] + w)[i]) {
      if i > 0 { assert ([c] + w)[i] == w[i - 1]; }
    }
  }

  /** Whitespace in front of text does not change its words. */
  lemma {:induction false} SplitSpacePrefix(sp: string, x: string)
    requires forall i :: 0 <= i < |sp| ==> IsSpace(sp[i])
    ensures Split(sp + x) == Split(x)
  {
    if sp == [] {
      assert sp + x == x;
    } else {
      var c, rest := sp[0], sp[1..];
      assert IsSpace(c);
      assert Split(rest + x) == Split(x) by {
        forall i | 0 <= i < |rest| ensures IsSpace(rest[i]) { assert rest[i] == sp[i + 1]; }
        SplitSpacePrefix(rest, x);
      }
      assert sp + x == [c] + (rest + x) by {
        assert sp == [c] + rest;
        AppendAssoc([c], rest, x);
      }
      assert Split([c] + (rest + x)) == Split(rest + x) by { SplitSkipsSpace(c, rest + x); }
    }
  }

  /** Whitespace after text does not change its words. */
  lemma {:induction false} SplitSpaceSuffix(x: string, sp: string)
    requires forall i :: 0 <= i < |sp| ==> IsSpace(sp[i])
    ensures Split(x + sp) == Split(x)
  {
    if x == [] {
      assert x + sp == sp;
      assert StripLeft(sp) == [];
    } else {
      var c, y := x[0], x[1..];
      SplitSpaceSuffix(y, sp);
      assert x == [c] + y;
      AppendAssoc([c], y, sp);
      if IsSpace(c) {
        SplitSkipsSpace(c, y + sp);
        SplitSkipsSpace(c, y);
      } else {
        if y != [] { assert (y + sp)[0] == y[0]; } else { assert y + sp == sp; }
        SplitConsChar(c, y + sp);
        SplitConsChar(c, y);
      }
    }
  }

  /** Collapsing whitespace runs keeps the words, in order. */
  lemma {:induction false} CollapseWords(f: string)
    ensures Split(Collapse(f)) == Split(f)
  {
    if f != [] {
      var c, t := f[0], f[1..];
      var ct := Collapse(t);
      assert f == [c] + t;
      assert Split(ct) == Split(t) by { CollapseWords(t); }
      if IsSpace(c) {
        assert Split(f) == Split(t) by { SplitSkipsSpace(c, t); }
        if !(|f| > 1 && IsSpace(f[1])) {
          assert Collapse(f) == [' '] + ct;
          assert Split([' '] + ct) == Split(ct) by { SplitSkipsSpace(' ', ct); }
        }
      } else {
        assert Collapse(f) == [c] + ct;
        assert (ct == [] || IsSpace(ct[0])) <==> (t == [] || IsSpace(t[0]));
        if t == [] || IsSpace(t[0]) {
          assert Split([c] + t) == [[c]] + Split(t) by { SplitConsChar(c, t); }
          assert Split([c] + ct) == [[c]] + Split(ct) by { SplitConsChar(c, ct); }
        } else {
          assert Split([c] + t) == [[c] + Split(t)[0]] + Split(t)[1..] by { SplitConsChar(c, t); }
          assert Split([c] + ct) == [[c] + Split(ct)[0]] + Split(ct)[1..] by { SplitConsChar(c, ct); }
        }
      }
    }
  }

  /** Stripping the ends keeps the words. */
  lemma StripWords(t: string)
    ensures Split(Strip(t)) == Split(t)
  {
    SplitStripLeft(t);
    SplitStripRight(StripLeft(t));
  }

  /** Dropping leading whitespace keeps the words. */
  lemma SplitStripLeft(t: string)
    ensures Split(StripLeft(t)) == Split(t)
  {
    var lead := LeadingSpace(t);
    var pre := t[..lead];
    LeadingSpaceIsSpace(t);
    forall i | 0 <= i < |pre| ensures IsSpace(pre[i]) { assert pre[i] == t[i]; }
    assert t == pre + t[lead..];
    SplitSpacePrefix(pre, t[lead..]);
  }

  /** Dropping trailing whitespace keeps the words. */
  lemma SplitStripRight(u: string)
    ensures Split(StripRight(u)) == Split(u)
  {
    var keep := |u| - TrailingSpace(u);
    var post := u[keep..];
    TrailingSpaceIsSpace(u);
    forall i | 0 <= i < |post| ensures IsSpace(post[i]) { assert post[i] == u[keep + i]; }
    assert u == u[..keep] + post;
    SplitSpaceSuffix(u[..keep], post);
  }

  /** The words of the normalised text are the words of the lowered, filtered text. */
  lemma NormalizeWords(s: string)
    ensures Split(Strip(Collapse(Filter(Lower(s))))) == Split(Filter(Lower(s)))
  {
    StripWords(Collapse(Filter(Lower(s))));
    CollapseWords(Filter(Lower(s)));
  }

  // ---------------------------------------------------------------------------
  // Properties of clean_text

  /** Splitting the join of the kept words gives the kept words. */
  lemma KeptRoundTrip(ws: seq<string>, stopWords: set<string>)
    requires forall k :: 0 <= k < |ws| ==> IsWord(ws[k])
    ensures Split(Join(Keep(ws, stopWords))) == Keep(ws, stopWords)
  {
    KeptJoinCanonical(ws, stopWords);
    SplitJoin(Keep(ws, stopWords));
  }

  /** The words of the cleaned query are exactly the words of the normalised
      query that are not stop words, in their original order; none is a stop word. */
  lemma CleanTextWords(s: string, stopWords: set<string>)
    ensures Split(CleanText(Str(s), stopWords)) == Keep(Split(Normalize(s)), stopWords)
    ensures Split(CleanText(Str(s), stopWords)) == Keep(Split(Filter(Lower(s))), stopWords)
    ensures IsSubsequence(Split(CleanText(Str(s), stopWords)), Split(Normalize(s)))
    ensures forall k :: 0 <= k < |Split(CleanText(Str(s), stopWords))| ==>
      IsWord(Split(CleanText(Str(s), stopWords))[k]) && Split(CleanText(Str(s), stopWords))[k] !in stopWords
  {
    var ws := Split(Normalize(s));
    var kept := Keep(ws, stopWords);
    assert CleanText(Str(s), stopWords) == Join(kept);
    assert forall k :: 0 <= k < |ws| ==> IsWord(ws[k]) by { SplitPlain(Normalize(s)); }
    assert Split(Join(kept)) == kept by { KeptRoundTrip(ws, stopWords); }
    assert forall k :: 0 <= k < |kept| ==> IsWord(kept[k]) by { KeptJoinCanonical(ws, stopWords); }
    assert forall k :: 0 <= k < |kept| ==> kept[k] !in stopWords by {
      forall k | 0 <= k < |kept| ensures kept[k] !in stopWords { assert kept[k] in kept; }
    }
    KeepIsSubsequence(ws, stopWords);
  }

  /** `a` is `b` with some elements left out. */
  predicate IsSubsequence<T(==)>(a: seq<T>, b: seq<T>)
    decreases |b|
  {
    if b == [] then a == []
    else (a != [] && a[0] == b[0] && IsSubsequence(a[1..], b[1..])) || IsSubsequence(a, b[1..])
  }

  /** Dropping stop words keeps the order of the remaining words. */
  lemma {:induction false} KeepIsSubsequence(ws: seq<string>, stopWords: set<string>)
    ensures IsSubsequence(Keep(ws, stopWords), ws)
  {
    if ws != [] {
      KeepIsSubsequence(ws[1..], stopWords);
      if ws[0] !in stopWords {
        assert ([ws[0]] + Keep(ws[1..], stopWords))[1..] == Keep(ws[1..], stopWords);
      }
    }
  }

  /** Cleaning a cleaned query changes nothing. */
  lemma CleanTextIdempotent(v: Value, stopWords: set<string>)
    ensures CleanText(Str(CleanText(v, stopWords)), stopWords) == CleanText(v, stopWords)
  {
    var c := CleanText(v, stopWords);
    var ws := Split(c);
    assert forall k :: 0 <= k < |ws| ==> ws[k] !in stopWords by { CleanTextNoStopWords(v, stopWords); }
    assert Keep(ws, stopWords) == ws by { KeepNoStopWords(ws, stopWords); }
    assert Join(ws) == c by { CleanTextJoinSplit(v, stopWords); }
    assert CleanText(Str(c), stopWords) == Join(Keep(ws, stopWords)) by { CleanTextCanonical(c, stopWords); }
  }

  /** On a canonical string clean_text only drops stop words. */
  lemma CleanTextCanonical(c: string, stopWords: set<string>)
    requires IsCanonical(c)
    ensures CleanText(Str(c), stopWords) == Join(Keep(Split(c), stopWords))
  {
    assert Normalize(c) == c;
  }

  /** No word of a cleaned query is a stop word. */
  lemma CleanTextNoStopWords(v: Value, stopWords: set<string>)
    ensures forall k :: 0 <= k < |Split(CleanText(v, stopWords))| ==> Split(CleanText(v, stopWords))[k] !in stopWords
  {
    match v
    case NonString =>
      assert StripLeft("") == "";
    case Str(s) =>
      CleanTextWords(s, stopWords);
  }

  /** Keep leaves a list without stop words unchanged. */
  lemma KeepNoStopWords(ws: seq<string>, stopWords: set<string>)
    requires forall k :: 0 <= k < |ws| ==> ws[k] !in stopWords
    ensures Keep(ws, stopWords) == ws
  {
    forall w | w in ws ensures w !in stopWords {
      var k :| 0 <= k < |ws| && ws[k] == w;
    }
  }

  /** The cleaned query is the join of its own words. */
  lemma CleanTextJoinSplit(v: Value, stopWords: set<string>)
    ensures Join(Split(CleanText(v, stopWords))) == CleanText(v, stopWords)
  {
    match v
    case NonString =>
      assert StripLeft("") == "";
    case Str(s) =>
      var ws := Split(Normalize(s));
      assert forall k :: 0 <= k < |ws| ==> IsWord(ws[k]) by { SplitPlain(Normalize(s)); }
      assert Split(Join(Keep(ws, stopWords))) == Keep(ws, stopWords) by { KeptRoundTrip(ws, stopWords); }
  }

  /** A query whose normalised words are all stop words cleans to "". */
  lemma OnlyStopWords(s: string, stopWords: set<string>)
    requires forall k :: 0 <= k < |Split(Normalize(s))| ==> Split(Normalize(s))[k] in stopWords
    ensures CleanText(Str(s), stopWords) == ""
  {
    var ws := Split(Normalize(s));
    assert Keep(ws, stopWords) == [] by { KeepAllStopWords(ws, stopWords); }
  }

  /** Keep drops a list made only of stop words entirely. */
  lemma {:induction false} KeepAllStopWords(ws: seq<string>, stopWords: set<string>)
    requires forall k :: 0 <= k < |ws| ==> ws[k] in stopWords
    ensures Keep(ws, stopWords) == []
  {
    if ws != [] {
      KeepAllStopWords(ws[1..], stopWords);
    }
  }

  /** A query of punctuation and whitespace only has no words and cleans to "". */
  lemma PunctuationOnly(s: string, stopWords: set<string>)
    requires forall i :: 0 <= i < |s| ==> IsSpace(s[i]) || IsAsciiPunct(s[i])
    ensures Split(Normalize(s)) == []
    ensures CleanText(Str(s), stopWords) == ""
  {
    assert Lower(s) == s;
    var filtered := Filter(s);
    assert forall i :: 0 <= i < |filtered| ==> IsSpace(filtered[i]) by { FilterPunctuation(s); }
    var collapsed := Collapse(filtered);
    assert forall i :: 0 <= i < |collapsed| ==> IsSpace(collapsed[i]) by { CollapseSpaces(filtered); }
    assert Normalize(s) == [];
  }

  /** Filtering whitespace and punctuation leaves only the whitespace. */
  lemma FilterPunctuation(s: string)
    requires forall i :: 0 <= i < |s| ==> IsSpace(s[i]) || IsAsciiPunct(s[i])
    ensures forall i :: 0 <= i < |Filter(s)| ==> IsSpace(Filter(s)[i])
  {
    var filtered := Filter(s);
    forall i | 0 <= i < |filtered| ensures IsSpace(filtered[i]) {
      var k :| 0 <= k < |s| && s[k] == filtered[i];
    }
  }

  /** Collapsing whitespace only gives whitespace only. */
  lemma CollapseSpaces(f: string)
    requires forall i :: 0 <= i < |f| ==> IsSpace(f[i])
    ensures forall i :: 0 <= i < |Collapse(f)| ==> IsSpace(Collapse(f)[i])
  {
  }
}
