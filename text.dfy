/** String helpers shared by the deduplication engine, the Hugo helpers and the
    feed-list flattener: Python's `str.isspace`, `str.lower`, `str.split()`,
    `' '.join`, `in` on strings, `str.title`, `str.replace` and `str.strip`.
    Case mapping is ASCII-only (see README, "Left out"). */
module Text {

  /** Python's `str.isspace` for one character: the characters `str.split()`
      and the regular-expression class `\s` treat as whitespace. */
  predicate IsSpace(c: char) {
    var n := c as int;
    (9 <= n <= 13) || (28 <= n <= 32) || n == 0x85 || n == 0xA0 || n == 0x1680
    || (0x2000 <= n <= 0x200A) || n == 0x2028 || n == 0x2029 || n == 0x202F
    || n == 0x205F || n == 0x3000
  }

  predicate IsUpper(c: char) { 'A' <= c <= 'Z' }

  predicate IsLowerLetter(c: char) { 'a' <= c <= 'z' }

  predicate IsLetter(c: char) { IsUpper(c) || IsLowerLetter(c) }

  predicate IsDigit(c: char) { '0' <= c <= '9' }

  function LowerChar(c: char): (r: char)
    ensures !IsUpper(r)
    ensures IsSpace(r) == IsSpace(c)
  {
    if IsUpper(c) then (c as int + 32) as char else c
  }

  function UpperChar(c: char): (r: char)
    ensures IsLowerLetter(c) ==> IsUpper(r)
  {
    if IsLowerLetter(c) then (c as int - 32) as char else c
  }

  predicate NoUpper(s: string) {
    forall i :: 0 <= i < |s| ==> !IsUpper(s[i])
  }

  /** `s.lower()`. */
  function Lower(s: string): (r: string)
    ensures |r| == |s|
    ensures NoUpper(r)
    ensures forall i :: 0 <= i < |s| ==> r[i] == LowerChar(s[i])
  {
    if s == [] then [] else [LowerChar(s[0])] + Lower(s[1..])
  }

  lemma {:induction false} LowerOfLower(s: string)
    requires NoUpper(s)
    ensures Lower(s) == s
  {
    if s != [] {
      LowerOfLower(s[1..]);
    }
  }

  /** A token produced by `str.split()`: non-empty, without whitespace. */
  predicate IsWord(w: string) {
    w != [] && forall i :: 0 <= i < |w| ==> !IsSpace(w[i])
  }

  /** Length of the leading run of non-whitespace characters. */
  function WordLength(s: string): (n: nat)
    ensures n <= |s|
    ensures forall i :: 0 <= i < n ==> !IsSpace(s[i])
    ensures n < |s| ==> IsSpace(s[n])
  {
    if s == [] || IsSpace(s[0]) then 0 else 1 + WordLength(s[1..])
  }

  /** `s.split()`: the maximal runs of non-whitespace characters, in order. */
  function Words(s: string): (ws: seq<string>)
    ensures forall i :: 0 <= i < |ws| ==> IsWord(ws[i])
    decreases |s|
  {
    if s == [] then []
    else if IsSpace(s[0]) then Words(s[1..])
    else
      var n := WordLength(s);
      [s[..n]] + Words(s[n..])
  }

  /** `' '.join(ws)`. */
  function JoinWords(ws: seq<string>): string {
    if ws == [] then ""
    else if |ws| == 1 then ws[0]
    else ws[0] + " " + JoinWords(ws[1..])
  }

  /** `' '.join(s.lower().split())`: lower-case and collapse whitespace. */
  function Normalize(s: string): string {
    JoinWords(Words(Lower(s)))
  }

  lemma {:induction false} WordLengthOfWord(w: string, t: string)
    requires IsWord(w)
    requires t == [] || IsSpace(t[0])
    ensures WordLength(w + t) == |w|
  {
    if |w| > 1 {
      assert (w + t)[1..] == w[1..] + t;
      WordLengthOfWord(w[1..], t);
    } else {
      assert (w + t)[1..] == t;
    }
  }

  lemma WordsOfWordThen(w: string, t: string)
    requires IsWord(w)
    requires t == [] || IsSpace(t[0])
    ensures Words(w + t) == [w] + Words(t)
  {
    WordLengthOfWord(w, t);
    assert (w + t)[..|w|] == w;
    assert (w + t)[|w|..] == t;
  }

  /** Splitting a single-space join of words gives the words back. */
  lemma {:induction false} WordsOfJoin(ws: seq<string>)
    requires forall i :: 0 <= i < |ws| ==> IsWord(ws[i])
    ensures Words(JoinWords(ws)) == ws
  {
    if ws == [] {
    } else if |ws| == 1 {
      WordsOfWordThen(ws[0], "");
      assert ws[0] + "" == ws[0];
    } else {
      var rest := JoinWords(ws[1..]);
      assert ws[0] + " " + rest == ws[0] + (" " + rest);
      WordsOfWordThen(ws[0], " " + rest);
      assert (" " + rest)[1..] == rest;
      WordsOfJoin(ws[1..]);
    }
  }

  lemma {:induction false} WordsNoUpper(s: string)
    requires NoUpper(s)
    ensures forall i :: 0 <= i < |Words(s)| ==> NoUpper(Words(s)[i])
    decreases |s|
  {
    if s == [] {
    } else if IsSpace(s[0]) {
      WordsNoUpper(s[1..]);
    } else {
      WordsNoUpper(s[WordLength(s)..]);
    }
  }

  lemma {:induction false} JoinNoUpper(ws: seq<string>)
    requires forall i :: 0 <= i < |ws| ==> NoUpper(ws[i])
    ensures NoUpper(JoinWords(ws))
  {
    if |ws| > 1 {
      JoinNoUpper(ws[1..]);
    }
  }

  /** The words of a normalised string are the words of the lower-cased input. */
  lemma WordsOfNormalize(s: string)
    ensures Words(Normalize(s)) == Words(Lower(s))
  {
    WordsOfJoin(Words(Lower(s)));
  }

  /** Normalising twice is normalising once. */
  lemma NormalizeIdempotent(s: string)
    ensures Normalize(Normalize(s)) == Normalize(s)
  {
    var ws := Words(Lower(s));
    WordsNoUpper(Lower(s));
    JoinNoUpper(ws);
    LowerOfLower(JoinWords(ws));
    WordsOfJoin(ws);
  }

  /** Python's `a in b` on strings: `a` occurs in `b` as a contiguous run. */
  predicate IsSubstring(a: string, b: string) {
    a <= b || (b != [] && IsSubstring(a, b[1..]))
  }

  /** `s.replace(a, b)` for single characters. */
  function ReplaceChar(s: string, a: char, b: char): (r: string)
    ensures |r| == |s|
    ensures forall i :: 0 <= i < |s| ==> r[i] == (if s[i] == a then b else s[i])
  {
    if s == [] then [] else [if s[0] == a then b else s[0]] + ReplaceChar(s[1..], a, b)
  }

  /** `s.title()`: a letter that follows a letter is lower-cased, any other
      letter is upper-cased; other characters are kept. */
  function TitleCase(s: string): string {
    TitleFrom(s, false)
  }

  function TitleFrom(s: string, prevCased: bool): (r: string)
    ensures |r| == |s|
  {
    if s == [] then []
    else
      var c := s[0];
      var c' := if IsLetter(c) then (if prevCased then LowerChar(c) else UpperChar(c)) else c;
      [c'] + TitleFrom(s[1..], IsLetter(c))
  }

  /** Length of the leading whitespace run of `s`. */
  function SpaceRun(s: string): (n: nat)
    ensures n <= |s|
    ensures forall i :: 0 <= i < n ==> IsSpace(s[i])
    ensures n < |s| ==> !IsSpace(s[n])
  {
    if s == [] || !IsSpace(s[0]) then 0 else 1 + SpaceRun(s[1..])
  }

  /** `s.lstrip()` / `s.rstrip()` / `s.strip()` with the default whitespace. */
  function StripLeft(s: string): (r: string)
    ensures r == [] || !IsSpace(r[0])
  {
    s[SpaceRun(s)..]
  }

  function StripRight(s: string): (r: string)
    ensures r == [] || !IsSpace(r[|r| - 1])
    ensures r <= s
    ensures forall k :: |r| <= k < |s| ==> IsSpace(s[k])
  {
    if s == [] || !IsSpace(s[|s| - 1]) then s
    else StripRight(s[..|s| - 1])
  }

  /** The stripped text is a slice of `s` that has only whitespace outside it
      and no whitespace at either of its ends. */
  function Strip(s: string): (r: string)
    ensures r == [] || (!IsSpace(r[0]) && !IsSpace(r[|r| - 1]))
    ensures exists i, j :: 0 <= i <= j <= |s| && r == s[i..j]
              && (forall k :: 0 <= k < i ==> IsSpace(s[k]))
              && (forall k :: j <= k < |s| ==> IsSpace(s[k]))
  {
    var i := SpaceRun(s);
    var l := s[i..];
    var r := StripRight(l);
    var j := i + |r|;
    assert r != [] ==> r[0] == l[0];
    assert r == s[i..j];
    assert forall k :: j <= k < |s| ==> s[k] == l[k - i];
    r
  }

  /** `str(n)` for a count: its decimal digits, most significant first. */
  function NatToString(n: nat): (s: string)
    ensures s != [] && forall i :: 0 <= i < |s| ==> IsDigit(s[i])
  {
    var d := [(48 + n % 10) as char];
    if n < 10 then d else NatToString(n / 10) + d
  }
}
