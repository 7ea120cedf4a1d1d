/**
 * Recovering the raw JSON argument from a command line
 * (rdc_tool/cli.py, _extract_raw_args_json_from_command_line).
 *
 * The scanner counts one bracket kind only. It is proved to cut out exactly the JSON text, for every
 * object or array in the grammar of RFC 8259 (strings as in its section 7) and every suffix.
 */
module ArgsScanner {
  import opened Wrappers
  import opened PythonText

  const FLAG := "--args-json"

  /** Which characters beyond ASCII are alphanumeric in Unicode. */
  type Wide = char -> bool

  /** A word character for `\b`; white space never is one. */
  predicate IsWordChar(c: char, wide: Wide) {
    || 'a' <= c <= 'z' || 'A' <= c <= 'Z' || '0' <= c <= '9' || c == '_'
    || (0x80 <= c as int && !IsSpace(c) && wide(c))
  }

  // ----- Finding the flag: the leftmost match of (?:^|\s)--args-json\b

  predicate FlagStands(raw: string, at: nat, wide: Wide) {
    && at + |FLAG| <= |raw|
    && raw[at..at + |FLAG|] == FLAG
    && (at + |FLAG| == |raw| || !IsWordChar(raw[at + |FLAG|], wide))
  }

  /** The end of a match that starts at `at`. */
  function MatchAt(raw: string, at: nat, wide: Wide): Option<nat> {
    if at == 0 && FlagStands(raw, 0, wide) then Some(|FLAG|)
    else if at < |raw| && IsSpace(raw[at]) && FlagStands(raw, at + 1, wide) then Some(at + 1 + |FLAG|)
    else None
  }

  function FindFlag(raw: string, from: nat, wide: Wide): (r: Option<nat>)
    requires from <= |raw|
    ensures r.Some? ==> r.value <= |raw|
    decreases |raw| - from
  {
    if MatchAt(raw, from, wide).Some? then MatchAt(raw, from, wide)
    else if from == |raw| then None
    else FindFlag(raw, from + 1, wide)
  }

  /** The flag stands here as a word of its own: at the start or after white space, and not inside a longer word. */
  predicate FlagAt(raw: string, p: nat, wide: Wide) {
    && p + 11 <= |raw|
    && raw[p..p + 11] == "--args-json"
    && (p == 0 || IsSpace(raw[p - 1]))
    && (p + 11 == |raw| || !Continues(raw[p + 11], wide))
  }

  /** A digit, an upper-case letter, the underscore or a lower-case letter, by code point, or one beyond ASCII. */
  predicate Continues(c: char, wide: Wide) {
    var n := c as int;
    || 48 <= n <= 57 || 65 <= n <= 90 || n == 95 || 97 <= n <= 122
    || (128 <= n && wide(c) && !IsSpace(c))
  }

  /** The search finds the leftmost flag, and fails only when there is none. */
  lemma FlagIsLeftmost(raw: string, wide: Wide)
    ensures match FindFlag(raw, 0, wide)
            case None => forall p: nat :: !FlagAt(raw, p, wide)
            case Some(end) =>
              && 11 <= end && FlagAt(raw, end - 11, wide)
              && forall p: nat :: p < end - 11 ==> !FlagAt(raw, p, wide)
  {
    LeftmostFrom(raw, 0, wide);
    MatchIsFlag(raw, 0, wide);
  }

  lemma FlagLength()
    ensures FLAG == "--args-json" && |FLAG| == 11
  {
  }

  lemma {:induction false} LeftmostFrom(raw: string, from: nat, wide: Wide)
    requires from <= |raw|
    ensures match FindFlag(raw, from, wide)
            case None => forall p: nat :: from < p ==> !FlagAt(raw, p, wide)
            case Some(end) =>
              && 11 <= end && FlagAt(raw, end - 11, wide) && (from < end - 11 || from == end - 11 == 0)
              && forall p: nat :: from < p < end - 11 ==> !FlagAt(raw, p, wide)
    decreases |raw| - from
  {
    MatchIsFlag(raw, from, wide);
    if MatchAt(raw, from, wide).Some? {
      assert FindFlag(raw, from, wide) == MatchAt(raw, from, wide);
    } else if from == |raw| {
      assert FindFlag(raw, from, wide) == None;
      assert forall p: nat :: from < p ==> !FlagAt(raw, p, wide);
    } else {
      assert FindFlag(raw, from, wide) == FindFlag(raw, from + 1, wide);
      LeftmostFrom(raw, from + 1, wide);
    }
  }

  lemma MatchIsFlag(raw: string, at: nat, wide: Wide)
    requires at <= |raw|
    ensures match MatchAt(raw, at, wide)
            case None => !FlagAt(raw, at + 1, wide) && (at == 0 ==> !FlagAt(raw, 0, wide))
            case Some(end) =>
              && 11 <= end && FlagAt(raw, end - 11, wide)
              && end - 11 == if FlagAt(raw, 0, wide) && at == 0 then 0 else at + 1
  {
    FlagLength();
  }

  function SkipSpaces(raw: string, from: nat): (r: nat)
    requires from <= |raw|
    ensures from <= r <= |raw|
    decreases |raw| - from
  {
    if from < |raw| && IsSpace(raw[from]) then SkipSpaces(raw, from + 1) else from
  }

  // ----- The automaton

  datatype State = State(depth: int, inString: bool, escaped: bool)

  datatype Progress = Going(state: State) | Closed(length: nat)

  function ClosingOf(opening: char): char {
    if opening == '{' then '}' else ']'
  }

  function Advance(opening: char, st: State, ch: char): Progress {
    if st.inString then
      if st.escaped then Going(st.(escaped := false))
      else if ch == '\\' then Going(st.(escaped := true))
      else if ch == '"' then Going(st.(inString := false))
      else Going(st)
    else if ch == '"' then Going(st.(inString := true))
    else if ch == opening then Going(st.(depth := st.depth + 1))
    else if ch == ClosingOf(opening) then
      if st.depth - 1 == 0 then Closed(1) else Going(st.(depth := st.depth - 1))
    else Going(st)
  }

  function Shift(n: nat, p: Progress): Progress {
    match p
    case Going(_) => p
    case Closed(length) => Closed(n + length)
  }

  function Drive(opening: char, st: State, text: string): (p: Progress)
    ensures p.Closed? ==> p.length <= |text|
    decreases text
  {
    if text == [] then Going(st)
    else
      match Advance(opening, st, text[0])
      case Closed(length) => Closed(length)
      case Going(next) => Shift(1, Drive(opening, next, text[1..]))
  }

  const START := State(0, false, false)

  function Scan(text: string): (r: string)
    ensures r <= text && (r != "" ==> r[0] in "{[")
  {
    if text == [] || text[0] !in "{[" then ""
    else
      match Drive(text[0], START, text)
      case Going(_) => ""
      case Closed(length) => text[..length]
  }

  function Extract(raw: string, wide: Wide): string {
    match FindFlag(raw, 0, wide)
    case None => ""
    case Some(end) =>
      var at := SkipSpaces(raw, end);
      Scan(if at < |raw| && raw[at] == '"' then raw[at + 1..] else raw[at..])
  }

  // ----- The source's loops

  method ExtractRawArgsJson(raw: string, wide: Wide) returns (text: string)
    ensures text == Extract(raw, wide)
  {
    var found := FindFlag(raw, 0, wide);
    if found.None? {
      return "";
    }
    var idx := found.value;
    while idx < |raw| && IsSpace(raw[idx])
      invariant found.value <= idx <= |raw|
      invariant SkipSpaces(raw, found.value) == SkipSpaces(raw, idx)
    {
      idx := idx + 1;
    }
    assert SkipSpaces(raw, idx) == idx;
    ExtractFrom(raw, found.value, idx, wide);
    if idx < |raw| && raw[idx] == '"' {
      idx := idx + 1;
    }
    text := ScanFrom(raw, idx);
  }

  lemma ExtractFrom(raw: string, end: nat, at: nat, wide: Wide)
    requires FindFlag(raw, 0, wide) == Some(end) && at == SkipSpaces(raw, end)
    ensures Extract(raw, wide) == Scan(raw[if at < |raw| && raw[at] == '"' then at + 1 else at..])
  {
  }

  method ScanFrom(raw: string, start: nat) returns (text: string)
    requires start <= |raw|
    ensures text == Scan(raw[start..])
  {
    if start >= |raw| || raw[start] !in "{[" {
      return "";
    }
    var idx := start;
    var opening := raw[idx];
    assert raw[start..][0] == opening;
    var closing := if opening == '{' then '}' else ']';
    var depth, inString, escaped := 0, false, false;
    ghost var goal := Drive(opening, START, raw[start..]);
    DrivesAhead(raw, opening, START, start, idx);
    while idx < |raw|
      invariant start <= idx <= |raw|
      invariant goal == Ahead(raw, opening, State(depth, inString, escaped), start, idx)
    {
      var ch := raw[idx];
      ghost var st := State(depth, inString, escaped);
      if inString {
        if escaped {
          escaped := false;
        } else if ch == '\\' {
          escaped := true;
        } else if ch == '"' {
          inString := false;
        }
      } else {
        if ch == '"' {
          inString := true;
        } else if ch == opening {
          depth := depth + 1;
        } else if ch == closing {
          depth := depth - 1;
          if depth == 0 {
            ClosesAt(raw, start, idx + 1 - start);
            return raw[start..idx + 1];
          }
        }
      }
      assert Advance(opening, st, ch) == Going(State(depth, inString, escaped));
      idx := idx + 1;
    }
    NeverCloses(raw, start, State(depth, inString, escaped));
    return "";
  }

  lemma NeverCloses(raw: string, start: nat, st: State)
    requires start < |raw| && raw[start] in "{["
    requires Drive(raw[start], START, raw[start..])
          == Ahead(raw, raw[start], st, start, |raw|)
    ensures Scan(raw[start..]) == ""
  {
    assert raw[|raw|..] == [];
  }

  lemma ClosesAt(raw: string, start: nat, length: nat)
    requires start < |raw| && raw[start] in "{["
    requires Drive(raw[start], START, raw[start..]) == Closed(length)
    ensures Scan(raw[start..]) == raw[start..start + length]
  {
    assert raw[start..][..length] == raw[start..start + length];
  }

  /** Where the automaton ends up, as seen from `start`, when it goes on from `idx` in state `st`. */
  ghost function Ahead(raw: string, opening: char, st: State, start: nat, idx: nat): Progress
    requires start <= idx <= |raw|
    decreases |raw| - idx
  {
    if idx == |raw| then Going(st)
    else
      match Advance(opening, st, raw[idx])
      case Closed(length) => Closed(idx - start + length)
      case Going(next) => Ahead(raw, opening, next, start, idx + 1)
  }

  lemma {:induction false} DrivesAhead(raw: string, opening: char, st: State, start: nat, idx: nat)
    requires start <= idx <= |raw|
    ensures Ahead(raw, opening, st, start, idx) == Shift(idx - start, Drive(opening, st, raw[idx..]))
    decreases |raw| - idx
  {
    if idx < |raw| {
      assert raw[idx..][1..] == raw[idx + 1..];
      var step := Advance(opening, st, raw[idx]);
      if step.Going? {
        DrivesAhead(raw, opening, step.state, start, idx + 1);
      }
    }
  }

  // ----- JSON texts, with every freedom the grammar leaves to a printer

  /** One item of a string: a plain character or a backslash pair; \uXXXX is a pair and four plain ones. */
  datatype Item = Plain(c: char) | Escape(c: char)

  datatype Json =
    | Literal(lexeme: string)
    | Str(body: seq<Item>)
    | Array(blank: string, elements: seq<Padded>)
    | Object(blank: string, members: seq<Member>)

  /** A value with the white space around it. */
  datatype Padded = Padded(before: string, value: Json, after: string)

  datatype Member = Member(before: string, key: seq<Item>, between: string, value: Padded)

  /** No quote and no bracket: white space, numbers and the three literal names are such texts. */
  predicate Quiet(s: string) {
    forall i :: 0 <= i < |s| ==> s[i] !in "\"{}[]"
  }

  predicate GoodBody(body: seq<Item>) {
    forall i :: 0 <= i < |body| && body[i].Plain? ==> body[i].c != '"' && body[i].c != '\\'
  }

  predicate WellFormed(j: Json) {
    match j
    case Literal(lexeme) => Quiet(lexeme)
    case Str(body) => GoodBody(body)
    case Array(blank, elements) => Quiet(blank) && forall i :: 0 <= i < |elements| ==> WellFormedPadded(elements[i])
    case Object(blank, members) => Quiet(blank) && forall i :: 0 <= i < |members| ==> WellFormedMember(members[i])
  }

  predicate WellFormedPadded(p: Padded) {
    Quiet(p.before) && WellFormed(p.value) && Quiet(p.after)
  }

  predicate WellFormedMember(m: Member) {
    Quiet(m.before) && GoodBody(m.key) && Quiet(m.between) && WellFormedPadded(m.value)
  }

  function BodyText(body: seq<Item>): string {
    if body == [] then ""
    else (match body[0] case Plain(c) => [c] case Escape(c) => ['\\', c]) + BodyText(body[1..])
  }

  function QuotedText(body: seq<Item>): string {
    "\"" + BodyText(body) + "\""
  }

  function Text(j: Json): string
    decreases j, 1, 0
  {
    match j
    case Literal(lexeme) => lexeme
    case Str(body) => QuotedText(body)
    case Array(blank, elements) => "[" + (if elements == [] then blank else ElementsText(j, 0)) + "]"
    case Object(blank, members) => "{" + (if members == [] then blank else MembersText(j, 0)) + "}"
  }

  function PaddedText(p: Padded): string
    decreases p, 0, 0
  {
    p.before + Text(p.value) + p.after
  }

  function MemberText(m: Member): string
    decreases m, 0, 0
  {
    m.before + QuotedText(m.key) + m.between + ":" + PaddedText(m.value)
  }

  function ElementsText(j: Json, from: nat): string
    requires j.Array? && from <= |j.elements|
    decreases j, 0, |j.elements| - from
  {
    if from == |j.elements| then ""
    else (if from == 0 then "" else ",") + PaddedText(j.elements[from]) + ElementsText(j, from + 1)
  }

  function MembersText(j: Json, from: nat): string
    requires j.Object? && from <= |j.members|
    decreases j, 0, |j.members| - from
  {
    if from == |j.members| then ""
    else (if from == 0 then "" else ",") + MemberText(j.members[from]) + MembersText(j, from + 1)
  }

  // ----- Inner values leave the automaton where it was

  lemma {:induction false} DriveConcat(opening: char, st: State, a: string, b: string)
    ensures Drive(opening, st, a + b) ==
      match Drive(opening, st, a)
      case Closed(length) => Closed(length)
      case Going(next) => Shift(|a|, Drive(opening, next, b))
    decreases a
  {
    if a == [] {
      assert a + b == b;
    } else {
      assert (a + b)[1..] == a[1..] + b;
      var step := Advance(opening, st, a[0]);
      if step.Going? {
        DriveConcat(opening, step.state, a[1..], b);
      }
    }
  }

  predicate Opening(c: char) {
    c == '{' || c == '['
  }

  /** `text` takes the automaton from a state outside strings back to the same state. */
  predicate Neutral(opening: char, depth: int, text: string) {
    Drive(opening, State(depth, false, false), text) == Going(State(depth, false, false))
  }

  lemma NeutralConcat(opening: char, depth: int, a: string, b: string)
    requires Neutral(opening, depth, a) && Neutral(opening, depth, b)
    ensures Neutral(opening, depth, a + b)
  {
    DriveConcat(opening, State(depth, false, false), a, b);
  }

  lemma {:induction false} QuietIsNeutral(opening: char, depth: int, s: string)
    requires Opening(opening) && Quiet(s)
    ensures Neutral(opening, depth, s)
  {
    if s != [] {
      QuietIsNeutral(opening, depth, s[1..]);
    }
  }

  lemma {:induction false} BodyStaysInside(opening: char, depth: int, body: seq<Item>)
    requires Opening(opening) && GoodBody(body)
    ensures Drive(opening, State(depth, true, false), BodyText(body)) == Going(State(depth, true, false))
  {
    if body != [] {
      BodyStaysInside(opening, depth, body[1..]);
      var head := match body[0] case Plain(c) => [c] case Escape(c) => ['\\', c];
      assert head[1..] == [] || (head[1..] == [body[0].c] && head[1..][1..] == []);
      DriveConcat(opening, State(depth, true, false), head, BodyText(body[1..]));
    }
  }

  lemma QuotedIsNeutral(opening: char, depth: int, body: seq<Item>)
    requires Opening(opening) && GoodBody(body)
    ensures Neutral(opening, depth, QuotedText(body))
  {
    BodyStaysInside(opening, depth, body);
    var inner := State(depth, true, false);
    DriveConcat(opening, inner, BodyText(body), "\"");
    assert Drive(opening, inner, "\"") == Going(State(depth, false, false));
    assert QuotedText(body) == ['"'] + (BodyText(body) + "\"");
    DriveConcat(opening, State(depth, false, false), ['"'], BodyText(body) + "\"");
  }

  lemma {:induction false} ValueIsNeutral(opening: char, depth: int, j: Json)
    requires Opening(opening) && WellFormed(j) && 1 <= depth
    ensures Neutral(opening, depth, Text(j))
    decreases j, 1, 0
  {
    match j
    case Literal(lexeme) => QuietIsNeutral(opening, depth, lexeme);
    case Str(body) => QuotedIsNeutral(opening, depth, body);
    case Array(blank, elements) =>
      var content := if elements == [] then blank else ElementsText(j, 0);
      var inner := if opening == '[' then depth + 1 else depth;
      ContentIsNeutral(opening, inner, j);
      BracketsAreNeutral(opening, depth, '[', content);
    case Object(blank, members) =>
      var content := if members == [] then blank else MembersText(j, 0);
      var inner := if opening == '{' then depth + 1 else depth;
      ContentIsNeutral(opening, inner, j);
      BracketsAreNeutral(opening, depth, '{', content);
  }

  /** The text between the brackets of a container. */
  function Content(j: Json): string
    requires j.Array? || j.Object?
  {
    match j
    case Array(blank, elements) => if elements == [] then blank else ElementsText(j, 0)
    case Object(blank, members) => if members == [] then blank else MembersText(j, 0)
  }

  lemma BracketsAreNeutral(opening: char, depth: int, bracket: char, content: string)
    requires Opening(opening) && Opening(bracket) && 1 <= depth
    requires Neutral(opening, if opening == bracket then depth + 1 else depth, content)
    ensures Neutral(opening, depth, [bracket] + content + [ClosingOf(bracket)])
  {
    var inner := if opening == bracket then depth + 1 else depth;
    DriveConcat(opening, State(inner, false, false), content, [ClosingOf(bracket)]);
    assert [bracket] + content + [ClosingOf(bracket)] == [bracket] + (content + [ClosingOf(bracket)]);
    DriveConcat(opening, State(depth, false, false), [bracket], content + [ClosingOf(bracket)]);
  }

  lemma {:induction false} ContentIsNeutral(opening: char, depth: int, j: Json)
    requires Opening(opening) && WellFormed(j) && 1 <= depth && (j.Array? || j.Object?)
    ensures Neutral(opening, depth, Content(j))
    decreases j, 0, 1 + if j.Array? then |j.elements| else |j.members|
  {
    QuietIsNeutral(opening, depth, j.blank);
    if j.Array? {
      ElementsAreNeutral(opening, depth, j, 0);
    } else {
      MembersAreNeutral(opening, depth, j, 0);
    }
  }

  lemma {:induction false} PaddedIsNeutral(opening: char, depth: int, p: Padded)
    requires Opening(opening) && WellFormedPadded(p) && 1 <= depth
    ensures Neutral(opening, depth, PaddedText(p))
    decreases p, 0, 0
  {
    QuietIsNeutral(opening, depth, p.before);
    ValueIsNeutral(opening, depth, p.value);
    QuietIsNeutral(opening, depth, p.after);
    NeutralConcat(opening, depth, p.before, Text(p.value));
    NeutralConcat(opening, depth, p.before + Text(p.value), p.after);
  }

  lemma {:induction false} MemberIsNeutral(opening: char, depth: int, m: Member)
    requires Opening(opening) && WellFormedMember(m) && 1 <= depth
    ensures Neutral(opening, depth, MemberText(m))
    decreases m, 0, 0
  {
    var key := QuotedText(m.key);
    QuietIsNeutral(opening, depth, m.before);
    QuotedIsNeutral(opening, depth, m.key);
    QuietIsNeutral(opening, depth, m.between);
    QuietIsNeutral(opening, depth, ":");
    PaddedIsNeutral(opening, depth, m.value);
    NeutralConcat(opening, depth, m.before, key);
    NeutralConcat(opening, depth, m.before + key, m.between);
    NeutralConcat(opening, depth, m.before + key + m.between, ":");
    NeutralConcat(opening, depth, m.before + key + m.between + ":", PaddedText(m.value));
  }

  lemma {:induction false} ElementsAreNeutral(opening: char, depth: int, j: Json, from: nat)
    requires Opening(opening) && WellFormed(j) && 1 <= depth && j.Array? && from <= |j.elements|
    ensures Neutral(opening, depth, ElementsText(j, from))
    decreases j, 0, |j.elements| - from
  {
    if from < |j.elements| {
      var comma := if from == 0 then "" else ",";
      QuietIsNeutral(opening, depth, comma);
      PaddedIsNeutral(opening, depth, j.elements[from]);
      ElementsAreNeutral(opening, depth, j, from + 1);
      NeutralConcat(opening, depth, comma, PaddedText(j.elements[from]));
      NeutralConcat(opening, depth, comma + PaddedText(j.elements[from]), ElementsText(j, from + 1));
    }
  }

  lemma {:induction false} MembersAreNeutral(opening: char, depth: int, j: Json, from: nat)
    requires Opening(opening) && WellFormed(j) && 1 <= depth && j.Object? && from <= |j.members|
    ensures Neutral(opening, depth, MembersText(j, from))
    decreases j, 0, |j.members| - from
  {
    if from < |j.members| {
      var comma := if from == 0 then "" else ",";
      QuietIsNeutral(opening, depth, comma);
      MemberIsNeutral(opening, depth, j.members[from]);
      MembersAreNeutral(opening, depth, j, from + 1);
      NeutralConcat(opening, depth, comma, MemberText(j.members[from]));
      NeutralConcat(opening, depth, comma + MemberText(j.members[from]), MembersText(j, from + 1));
    }
  }

  // ----- Main results

  /** The scan ends exactly with the closing bracket of the text it started on. */
  lemma ContainerCloses(j: Json)
    requires WellFormed(j) && (j.Array? || j.Object?)
    ensures Text(j) != [] && Opening(Text(j)[0])
    ensures Drive(Text(j)[0], START, Text(j)) == Closed(|Text(j)|)
  {
    var opening := Text(j)[0];
    var closing := [ClosingOf(opening)];
    ContentIsNeutral(opening, 1, j);
    DriveConcat(opening, State(1, false, false), Content(j), closing);
    assert Text(j) == [opening] + (Content(j) + closing);
    DriveConcat(opening, START, [opening], Content(j) + closing);
  }

  /** The scanner inverts every printer: the text comes back exactly, whatever follows it. */
  lemma ScanInvertsPrinter(j: Json, suffix: string)
    requires WellFormed(j) && (j.Array? || j.Object?)
    ensures Scan(Text(j) + suffix) == Text(j)
  {
    ContainerCloses(j);
    DriveConcat(Text(j)[0], START, Text(j), suffix);
    assert (Text(j) + suffix)[..|Text(j)|] == Text(j);
  }

  /** A truncated text is never mistaken for a complete one. */
  lemma ScanRejectsTruncation(j: Json, n: nat)
    requires WellFormed(j) && (j.Array? || j.Object?) && n < |Text(j)|
    ensures Scan(Text(j)[..n]) == ""
  {
    ContainerCloses(j);
    var head, tail := Text(j)[..n], Text(j)[n..];
    assert Text(j) == head + tail;
    DriveConcat(Text(j)[0], START, head, tail);
  }

  lemma {:induction false} SpacesAreSkipped(raw: string, from: nat, to: nat)
    requires from <= to <= |raw|
    requires forall i :: from <= i < to ==> IsSpace(raw[i])
    requires to < |raw| ==> !IsSpace(raw[to])
    ensures SkipSpaces(raw, from) == to
    decreases |raw| - from
  {
    if from < to {
      SpacesAreSkipped(raw, from + 1, to);
    }
  }

  /** Text that begins with a space: the flag before it cannot reach over it. */
  predicate Separated(tail: string) {
    tail == "" || IsSpace(tail[0])
  }

  lemma FlagHasNoSpace(raw: string, begin: nat, i: nat, wide: Wide)
    requires FlagStands(raw, begin, wide) && begin <= i < begin + |FLAG|
    ensures !IsSpace(raw[i])
  {
    assert raw[i] == raw[begin..begin + |FLAG|][i - begin];
    assert forall c :: c in FLAG ==> !IsSpace(c);
  }

  /** A match that begins before a space cannot reach over it. */
  lemma NoMatchAcross(pre: string, tail: string, at: nat, wide: Wide)
    requires at < |pre| && Separated(tail) && MatchAt(pre + tail, at, wide).Some?
    ensures MatchAt(pre, at, wide).Some?
  {
    if at == 0 && FlagStands(pre + tail, 0, wide) {
      NoFlagAcross(pre, tail, 0, wide);
    } else {
      NoFlagAcross(pre, tail, at + 1, wide);
    }
  }

  lemma NoFlagAcross(pre: string, tail: string, begin: nat, wide: Wide)
    requires begin <= |pre| && Separated(tail) && FlagStands(pre + tail, begin, wide)
    ensures FlagStands(pre, begin, wide)
  {
    var raw, end := pre + tail, begin + |FLAG|;
    if |pre| < end {
      FlagHasNoSpace(raw, begin, |pre|, wide);
    } else {
      assert raw[begin..end] == pre[begin..end];
    }
  }

  lemma {:induction false} SearchReachesTail(pre: string, tail: string, from: nat, wide: Wide)
    requires from <= |pre| && Separated(tail)
    requires FindFlag(pre, from, wide) == None
    requires MatchAt(pre + tail, |pre|, wide).Some?
    ensures FindFlag(pre + tail, from, wide) == MatchAt(pre + tail, |pre|, wide)
    decreases |pre| - from
  {
    if from < |pre| {
      if MatchAt(pre + tail, from, wide).Some? {
        NoMatchAcross(pre, tail, from, wide);
      }
      SearchReachesTail(pre, tail, from + 1, wide);
    }
  }

  lemma FlagStandsBefore(lead: string, rest: string, wide: Wide)
    requires rest == "" || !IsWordChar(rest[0], wide)
    ensures FlagStands(lead + (FLAG + rest), |lead|, wide)
  {
    var raw := lead + (FLAG + rest);
    assert raw[|lead|..] == FLAG + rest;
    assert raw[|lead|..|lead| + |FLAG|] == FLAG;
  }

  lemma FlagIsFound(pre: string, separator: string, rest: string, wide: Wide)
    requires FindFlag(pre, 0, wide) == None
    requires (pre == "" && separator == "") || (|separator| == 1 && IsSpace(separator[0]))
    requires rest == "" || !IsWordChar(rest[0], wide)
    ensures FindFlag(pre + separator + (FLAG + rest), 0, wide) == Some(|pre + separator| + |FLAG|)
  {
    var flagged := FLAG + rest;
    FlagStandsBefore(pre + separator, rest, wide);
    if separator != "" {
      Associates(pre, separator, flagged);
      FoundAfterSpace(pre, separator + flagged, wide);
    }
  }

  lemma FoundAfterSpace(pre: string, tail: string, wide: Wide)
    requires FindFlag(pre, 0, wide) == None
    requires tail != "" && IsSpace(tail[0])
    requires FlagStands(pre + tail, |pre| + 1, wide)
    ensures FindFlag(pre + tail, 0, wide) == Some(|pre| + 1 + |FLAG|)
  {
    if FlagStands(pre + tail, 0, wide) {
      if pre == "" {
        FlagHasNoSpace(pre + tail, 0, 0, wide);
      } else {
        NoFlagAcross(pre, tail, 0, wide);
      }
    } else {
      SearchReachesTail(pre, tail, 0, wide);
    }
  }

  /** On a whole command line: the first --args-json's JSON text comes back, quoted or not. */
  lemma ExtractFindsArgument(
    pre: string, separator: string, gap: string, quote: string, j: Json, suffix: string, wide: Wide)
    requires WellFormed(j) && (j.Array? || j.Object?)
    requires forall p: nat :: !FlagAt(pre, p, wide)
    requires (pre == "" && separator == "") || (|separator| == 1 && IsSpace(separator[0]))
    requires forall i :: 0 <= i < |gap| ==> IsSpace(gap[i])
    requires quote == "" || quote == "\""
    ensures Extract(pre + separator + ("--args-json" + (gap + (quote + (Text(j) + suffix)))), wide) == Text(j)
  {
    FlagIsLeftmost(pre, wide);
    FlagLength();
    ContainerCloses(j);
    ScanInvertsPrinter(j, suffix);
    ExtractReaches(pre, separator, gap, quote, Text(j) + suffix, wide);
  }

  /** Only the first flag counts: what is scanned begins after it, white space and one quote. */
  lemma ExtractMeans(raw: string, p: nat, at: nat, wide: Wide)
    requires FlagAt(raw, p, wide) && forall q: nat :: q < p ==> !FlagAt(raw, q, wide)
    requires p + 11 <= at <= |raw| && forall i :: p + 11 <= i < at ==> IsSpace(raw[i])
    requires at < |raw| ==> !IsSpace(raw[at])
    ensures Extract(raw, wide) == Scan(if at < |raw| && raw[at] == '"' then raw[at + 1..] else raw[at..])
  {
    FirstFlagIsFound(raw, p, wide);
    SpacesAreSkipped(raw, p + 11, at);
    ExtractAt(raw, p + 11, if at < |raw| && raw[at] == '"' then raw[at + 1..] else raw[at..], wide);
  }

  lemma FirstFlagIsFound(raw: string, p: nat, wide: Wide)
    requires FlagAt(raw, p, wide) && forall q: nat :: q < p ==> !FlagAt(raw, q, wide)
    ensures FindFlag(raw, 0, wide) == Some(p + 11)
  {
    FlagIsLeftmost(raw, wide);
  }

  lemma NoFlagNoArgument(raw: string, wide: Wide)
    requires forall p: nat :: !FlagAt(raw, p, wide)
    ensures Extract(raw, wide) == ""
  {
    FlagIsLeftmost(raw, wide);
  }

  lemma ExtractReaches(pre: string, separator: string, gap: string, quote: string, body: string, wide: Wide)
    requires body != "" && Opening(body[0])
    requires FindFlag(pre, 0, wide) == None
    requires (pre == "" && separator == "") || (|separator| == 1 && IsSpace(separator[0]))
    requires forall i :: 0 <= i < |gap| ==> IsSpace(gap[i])
    requires quote == "" || quote == "\""
    ensures Extract(pre + separator + (FLAG + (gap + (quote + body))), wide) == Scan(body)
  {
    var lead, rest := pre + separator, gap + (quote + body);
    assert FindFlag(lead + (FLAG + rest), 0, wide) == Some(|lead| + |FLAG|) by {
      AfterFlagStarts(gap, quote, body, wide);
      FlagIsFound(pre, separator, rest, wide);
    }
    AfterFlag(lead, gap, quote, body);
    ExtractAt(lead + (FLAG + rest), |lead| + |FLAG|, body, wide);
  }

  lemma AfterFlagStarts(gap: string, quote: string, body: string, wide: Wide)
    requires body != "" && Opening(body[0])
    requires forall i :: 0 <= i < |gap| ==> IsSpace(gap[i])
    requires quote == "" || quote == "\""
    ensures !IsWordChar((gap + (quote + body))[0], wide)
  {
  }

  lemma ExtractAt(raw: string, end: nat, body: string, wide: Wide)
    requires FindFlag(raw, 0, wide) == Some(end)
    requires var at := SkipSpaces(raw, end);
             body == if at < |raw| && raw[at] == '"' then raw[at + 1..] else raw[at..]
    ensures Extract(raw, wide) == Scan(body)
  {
  }

  lemma AfterFlag(lead: string, gap: string, quote: string, body: string)
    requires body != "" && Opening(body[0])
    requires forall i :: 0 <= i < |gap| ==> IsSpace(gap[i])
    requires quote == "" || quote == "\""
    ensures var raw := lead + (FLAG + (gap + (quote + body)));
            var at := SkipSpaces(raw, |lead| + |FLAG|);
            body == if at < |raw| && raw[at] == '"' then raw[at + 1..] else raw[at..]
  {
    var raw := lead + (FLAG + (gap + (quote + body)));
    var begin := |lead| + |FLAG|;
    var at := begin + |gap|;
    assert raw[begin..] == gap + (quote + body);
    assert raw[at..] == quote + body;
    assert raw[at] == raw[at..][0];
    forall i | begin <= i < at ensures IsSpace(raw[i]) {
      assert raw[i] == raw[begin..][i - begin];
    }
    SpacesAreSkipped(raw, begin, at);
    assert quote != "" ==> raw[at + 1..] == body;
  }
}
