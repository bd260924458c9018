/**
 The six-state lexer that finds where PostgreSQL statements end (section 4.1 of the
 PostgreSQL documentation, Lexical Structure).  One step reads the text ahead, and at most
 two characters behind.
 */
module Lexer {
  import opened Options

  /** How characters are classified, and how a word is folded to a keyword. */
  datatype Alphabet = Alphabet(alpha: char -> bool, alnum: char -> bool, space: char -> bool, upper: string -> string)

  const PUNCTUATION: set<char> := {'\'', '\"', '$', '-', '/', '*', ';', '\\'}

  /** What every classification gets right: letters are alphanumeric, spaces and punctuation are neither. */
  ghost predicate Sane(u: Alphabet) {
    && (forall c :: u.alpha(c) ==> u.alnum(c))
    && (forall c :: u.space(c) ==> !u.alnum(c) && c != '_')
    && (forall c :: c in PUNCTUATION ==> !u.alnum(c) && !u.space(c))
    && u.alpha('E')
  }

  predicate WordStart(u: Alphabet, c: char) {
    u.alpha(c) || c == '_'
  }

  predicate WordPart(u: Alphabet, c: char) {
    u.alnum(c) || c == '_' || c == '$'
  }

  function WordLength(u: Alphabet, rest: string): (n: nat)
    ensures n <= |rest|
    ensures forall i :: 0 <= i < n ==> WordPart(u, rest[i])
    ensures n < |rest| ==> !WordPart(u, rest[n])
  {
    if rest == "" || !WordPart(u, rest[0]) then 0 else 1 + WordLength(u, rest[1..])
  }

  /** The word at the start of `rest`, as written. */
  function WordAt(u: Alphabet, rest: string): (word: Option<string>)
    ensures word.Some? ==> 0 < |word.value| <= |rest| && word.value == rest[..|word.value|]
    ensures word.Some? <==> rest != "" && WordStart(u, rest[0])
  {
    if rest == "" || !WordStart(u, rest[0]) then None else Some(rest[..1 + WordLength(u, rest[1..])])
  }

  predicate Starts(rest: string, prefix: string) {
    |prefix| <= |rest| && rest[..|prefix|] == prefix
  }

  /** Where the next newline leaves off; the end when there is none. */
  function AfterLine(rest: string): (n: nat)
    ensures n <= |rest|
    ensures rest != "" ==> n > 0
  {
    if rest == "" then 0 else if rest[0] == '\n' then 1 else 1 + AfterLine(rest[1..])
  }

  /** How far a nested block comment reaches, `depth` levels deep (section 4.1.5). */
  function AfterBlock(rest: string, depth: nat): (n: nat)
    ensures n <= |rest|
  {
    if rest == "" || depth == 0 then 0
    else if Starts(rest, "/*") then 2 + AfterBlock(rest[2..], depth + 1)
    else if Starts(rest, "*/") then 2 + AfterBlock(rest[2..], depth - 1)
    else 1 + AfterBlock(rest[1..], depth)
  }

  /** The next keyword, past whitespace and comments. */
  function NextKeyword(u: Alphabet, rest: string): Option<string>
    decreases |rest|
  {
    if rest == "" then None
    else if u.space(rest[0]) then NextKeyword(u, rest[1..])
    else if Starts(rest, "--") then NextKeyword(u, rest[2..][AfterLine(rest[2..])..])
    else if Starts(rest, "/*") then NextKeyword(u, rest[2..][AfterBlock(rest[2..], 1)..])
    else
      match WordAt(u, rest)
      case None => None
      case Some(word) => Some(u.upper(word))
  }

  function FindDollar(rest: string): (n: nat)
    ensures n <= |rest|
    ensures n < |rest| ==> rest[n] == '$'
    ensures forall i :: 0 <= i < n ==> rest[i] != '$'
  {
    if rest == "" || rest[0] == '$' then 0 else 1 + FindDollar(rest[1..])
  }

  predicate IsTag(u: Alphabet, tag: string) {
    (tag == "" || WordStart(u, tag[0])) && forall i :: 0 <= i < |tag| ==> u.alnum(tag[i]) || tag[i] == '_'
  }

  /** The opening delimiter of a dollar quote (section 4.1.2.4). */
  function DollarDelimiter(u: Alphabet, behind: string, rest: string): (delimiter: Option<string>)
    ensures delimiter.Some? ==> 2 <= |delimiter.value| <= |rest| && delimiter.value == rest[..|delimiter.value|]
    ensures delimiter.Some? ==> rest[0] == '$'
  {
    if rest == "" || rest[0] != '$' || (behind != "" && WordPart(u, behind[|behind| - 1])) then None
    else
      var end := FindDollar(rest[1..]);
      if end == |rest| - 1 || !IsTag(u, rest[1..1 + end]) then None else Some(rest[..end + 2])
  }

  /** Whether a quote opens a string with backslash escapes (section 4.1.2.2). */
  predicate IsEscape(u: Alphabet, behind: string, standard: bool) {
    !standard
    || (behind != "" && (behind[|behind| - 1] == 'e' || behind[|behind| - 1] == 'E')
        && (|behind| == 1 || !WordPart(u, behind[|behind| - 2])))
  }

  datatype Mode =
    | Normal
    | LineComment
    | BlockComment(depth: nat)
    | SingleQuote(escape: bool)
    | DoubleQuote
    | DollarQuote(delimiter: string)

  /** The lexer between steps: its mode, the open atomic blocks, and a keyword to skip once. */
  datatype State = State(mode: Mode, blocks: seq<string>, ignored: Option<string>)

  const START := State(Normal, [], None)

  /** One step: how far it reads, the state after it, and whether a statement ends there. */
  datatype Move = Move(length: nat, state: State, cut: bool)

  const BLOCK_KEYWORDS: set<string> := {"CASE", "IF", "LOOP", "WHILE"}

  /** What one keyword does to the atomic blocks; `after` is the text behind it. */
  function Keyword(u: Alphabet, keyword: string, after: string, s: State): State {
    if s.ignored == Some(keyword) then s.(ignored := None)
    else if s.blocks != [] then
      if keyword == "BEGIN" || keyword == "CASE" then s.(blocks := s.blocks + [keyword])
      else if keyword == "END" then
        var next := NextKeyword(u, after);
        s.(blocks := s.blocks[..|s.blocks| - 1],
           ignored := if next.Some? && next.value in BLOCK_KEYWORDS then next else s.ignored)
      else s
    else if keyword == "BEGIN" && NextKeyword(u, after) == Some("ATOMIC") then s.(blocks := ["BEGIN"])
    else s
  }

  function NormalStep(u: Alphabet, behind: string, rest: string, standard: bool, s: State): (m: Move)
    requires rest != "" && s.mode.Normal?
    ensures 0 < m.length <= |rest|
    ensures m.cut ==> rest[0] == ';' && m == Move(1, s, true) && s.blocks == []
  {
    if Starts(rest, "--") then Move(2, s.(mode := LineComment), false)
    else if Starts(rest, "/*") then Move(2, s.(mode := BlockComment(1)), false)
    else if rest[0] == '\'' then Move(1, s.(mode := SingleQuote(IsEscape(u, behind, standard))), false)
    else if rest[0] == '\"' then Move(1, s.(mode := DoubleQuote), false)
    else
      match DollarDelimiter(u, behind, rest)
      case Some(delimiter) => Move(|delimiter|, s.(mode := DollarQuote(delimiter)), false)
      case None =>
        match WordAt(u, rest)
        case Some(word) => Move(|word|, Keyword(u, u.upper(word), rest[|word|..], s), false)
        case None => Move(1, s, rest[0] == ';' && s.blocks == [])
  }

  function Step(u: Alphabet, behind: string, rest: string, standard: bool, s: State): (m: Move)
    requires rest != ""
    ensures 0 < m.length <= |rest|
    ensures m.cut ==> s.mode.Normal? && rest[0] == ';' && m == Move(1, s, true) && s.blocks == []
  {
    match s.mode
    case Normal => NormalStep(u, behind, rest, standard, s)
    case LineComment => Move(1, if rest[0] == '\r' || rest[0] == '\n' then s.(mode := Normal) else s, false)
    case BlockComment(depth) =>
      if Starts(rest, "/*") then Move(2, s.(mode := BlockComment(depth + 1)), false)
      else if Starts(rest, "*/") then
        Move(2, s.(mode := if depth <= 1 then Normal else BlockComment(depth - 1)), false)
      else Move(1, s, false)
    case SingleQuote(escape) =>
      if rest[0] == '\\' && escape then Move(if |rest| > 1 then 2 else 1, s, false)
      else if rest[0] == '\'' then
        if |rest| > 1 && rest[1] == '\'' then Move(2, s, false) else Move(1, s.(mode := Normal), false)
      else Move(1, s, false)
    case DoubleQuote =>
      if rest[0] == '\"' then
        if |rest| > 1 && rest[1] == '\"' then Move(2, s, false) else Move(1, s.(mode := Normal), false)
      else Move(1, s, false)
    case DollarQuote(delimiter) =>
      if delimiter != "" && Starts(rest, delimiter) then Move(|delimiter|, s.(mode := Normal), false)
      else Move(1, s, false)
  }
}
