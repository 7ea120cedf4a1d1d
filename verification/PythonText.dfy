/** The character classes of Python's `str` that the modelled code relies on. */
module PythonText {
  /** `str.isspace`, which is also what `\s` matches and what `split` separates on. */
  predicate IsSpace(c: char) {
    var n := c as int;
    || 0x09 <= n <= 0x0d || 0x1c <= n <= 0x20 || n == 0x85 || n == 0xa0 || n == 0x1680
    || 0x2000 <= n <= 0x200a || n == 0x2028 || n == 0x2029 || n == 0x202f || n == 0x205f || n == 0x3000
  }

  /** The same classes, character by character. */
  lemma SpacesAre(c: char)
    ensures IsSpace(c) <==>
      || c in "\t\n\r \U{0b}\U{0c}\U{1c}\U{1d}\U{1e}\U{1f}\U{85}\U{a0}\U{1680}\U{2028}\U{2029}\U{202f}\U{205f}\U{3000}"
      || c in "\U{2000}\U{2001}\U{2002}\U{2003}\U{2004}\U{2005}\U{2006}\U{2007}\U{2008}\U{2009}\U{200a}"
    ensures IsLineBreak(c) <==> c in "\n\r\U{0b}\U{0c}\U{1c}\U{1d}\U{1e}\U{85}\U{2028}\U{2029}"
  {
    assert c as int as char == c;
  }

  /** Where `splitlines` breaks. */
  predicate IsLineBreak(c: char) {
    var n := c as int;
    0x0a <= n <= 0x0d || 0x1c <= n <= 0x1e || n == 0x85 || n == 0x2028 || n == 0x2029
  }

  function LineEnd(s: string): (n: nat)
    ensures n <= |s| && (n < |s| ==> IsLineBreak(s[n]))
    ensures forall i :: 0 <= i < n ==> !IsLineBreak(s[i])
  {
    if s == "" || IsLineBreak(s[0]) then 0 else 1 + LineEnd(s[1..])
  }

  /** `str.splitlines`: CR LF is one break, and a final break opens no further line. */
  function SplitLines(s: string): seq<string>
    decreases |s|
  {
    if s == "" then []
    else
      var end := LineEnd(s);
      if end == |s| then [s]
      else
        var width := if s[end] == '\r' && end + 1 < |s| && s[end + 1] == '\n' then 2 else 1;
        [s[..end]] + SplitLines(s[end + width..])
  }

  function WordEnd(s: string): (n: nat)
    ensures n <= |s| && (n < |s| ==> IsSpace(s[n]))
    ensures forall i :: 0 <= i < n ==> !IsSpace(s[i])
  {
    if s == "" || IsSpace(s[0]) then 0 else 1 + WordEnd(s[1..])
  }

  /** `str.split()` without arguments. */
  function Words(s: string): seq<string>
    decreases |s|
  {
    if s == "" then []
    else if IsSpace(s[0]) then Words(s[1..])
    else [s[..WordEnd(s)]] + Words(s[WordEnd(s)..])
  }

  /** A text that `split` keeps whole. */
  predicate IsWord(s: string) {
    s != "" && forall i :: 0 <= i < |s| ==> !IsSpace(s[i])
  }

  lemma {:induction false} FirstWord(word: string, rest: string)
    requires IsWord(word) && (rest == "" || IsSpace(rest[0]))
    ensures Words(word + rest) == [word] + Words(rest)
  {
    WordEndsThere(word, rest);
    assert (word + rest)[..|word|] == word && (word + rest)[|word|..] == rest;
  }

  lemma {:induction false} WordEndsThere(word: string, rest: string)
    requires (forall i :: 0 <= i < |word| ==> !IsSpace(word[i])) && (rest == "" || IsSpace(rest[0]))
    ensures WordEnd(word + rest) == |word|
  {
    if word != "" {
      assert (word + rest)[1..] == word[1..] + rest;
      WordEndsThere(word[1..], rest);
    } else {
      assert word + rest == rest;
    }
  }

  /** CR LF, or one break that is not the first half of it. */
  predicate Breaks(mark: string, rest: string) {
    || mark == "\r\n"
    || (|mark| == 1 && IsLineBreak(mark[0]) && (mark == "\r" ==> rest == "" || rest[0] != '\n'))
  }

  lemma {:induction false} FirstLine(line: string, mark: string, rest: string)
    requires (forall i :: 0 <= i < |line| ==> !IsLineBreak(line[i])) && Breaks(mark, rest)
    ensures SplitLines(line + (mark + rest)) == [line] + SplitLines(rest)
  {
    LineEndsThere(line, mark + rest);
    LineIsCut(line + (mark + rest), line, mark, rest);
  }

  lemma LineIsCut(s: string, line: string, mark: string, rest: string)
    requires s == line + (mark + rest) && LineEnd(s) == |line| && Breaks(mark, rest)
    ensures SplitLines(s) == [line] + SplitLines(rest)
  {
    assert s[..|line|] == line && s[|line| + |mark|..] == rest;
    assert s[|line|] == mark[0];
    if |mark| == 2 {
      assert s[|line| + 1] == mark[1];
    } else if rest != "" {
      assert s[|line| + 1] == rest[0];
    }
  }

  lemma {:induction false} LineEndsThere(line: string, rest: string)
    requires (forall i :: 0 <= i < |line| ==> !IsLineBreak(line[i])) && rest != "" && IsLineBreak(rest[0])
    ensures LineEnd(line + rest) == |line|
  {
    if line != "" {
      assert (line + rest)[1..] == line[1..] + rest;
      LineEndsThere(line[1..], rest);
    } else {
      assert line + rest == rest;
    }
  }
}
