/**
 What a PostgreSQL script is made of, said without the lexer (section 4.1 of the PostgreSQL
 documentation, Lexical Structure), and the proof that the lexer reads it so: it runs over
 every element, and cuts at exactly the semicolons outside BEGIN ATOMIC blocks.
 */
module Elements {
  import opened Options
  import opened Lexer
  import opened Quoting
  import opened Literals
  import opened Splitter

  /** What a block comment holds behind its opening: nested openings, closings, other characters. */
  datatype Mark = Opens | Closes | Plain(c: char)

  datatype Element =
    | Space(c: char)
    | Symbol(c: char)                              // a digit, an operator, a parenthesis
    | Semicolon
    | Word(text: string)
    | Quoted(pieces: seq<string>, escape: bool)    // '...', with or without backslash escapes
    | Identifier(name: string)                     // "..."
    | Dollar(tag: string, body: string)            // $tag$...$tag$
    | Line(text: string, ending: string)           // -- and the rest of the line
    | Block(marks: seq<Mark>)                      // a nested comment
  {
    /** What PostgreSQL ignores. */
    predicate Blank() {
      Space? || Line? || Block?
    }

    function Text(): string {
      match this
      case Space(c) => [c]
      case Symbol(c) => [c]
      case Semicolon => ";"
      case Word(text) => text
      case Quoted(pieces, _) => "'" + (Concat(pieces) + "'")
      case Identifier(name) => QuoteIdentifier(name)
      case Dollar(tag, body) => Delimiter(tag) + (body + Delimiter(tag))
      case Line(text, ending) => "--" + (text + ending)
      case Block(marks) => "/*" + MarksText(marks)
    }
  }

  function Delimiter(tag: string): string {
    "$" + tag + "$"
  }

  function MarksText(marks: seq<Mark>): string {
    if marks == [] then "" else MarkText(marks[0]) + MarksText(marks[1..])
  }

  function MarkText(mark: Mark): string {
    match mark
    case Opens => "/*"
    case Closes => "*/"
    case Plain(c) => [c]
  }

  function TextOf(elements: seq<Element>): string {
    if elements == [] then "" else elements[0].Text() + TextOf(elements[1..])
  }

  // ---- Where an element may stand -----------------------------------------------------------------

  predicate Begins(text: string, c: char) {
    text != "" && text[0] == c
  }

  /** A letter, digit, underscore or dollar sign prolongs a name. */
  predicate Prolongs(u: Alphabet, c: char) {
    u.alnum(c) || c == '_' || c == '$'
  }

  /** The text ends in something a name could go on from. */
  predicate Attached(u: Alphabet, behind: string) {
    behind != "" && Prolongs(u, behind[|behind| - 1])
  }

  /** A tag is empty, or a letter or underscore followed by letters, digits and underscores. */
  predicate Tag(u: Alphabet, tag: string) {
    && (forall i :: 0 <= i < |tag| ==> u.alnum(tag[i]) || tag[i] == '_')
    && (tag != "" ==> u.alpha(tag[0]) || tag[0] == '_')
  }

  /** `text` holds `part` from `k` on. */
  predicate HoldsAt(text: string, k: nat, part: string) {
    k + |part| <= |text| && text[k..k + |part|] == part
  }

  /** Strings without backslash escapes hold anything, quotes doubled; with escapes, a backslash takes one character along. */
  predicate Piece(piece: string, escape: bool) {
    || piece == "''"
    || (|piece| == 1 && piece[0] != '\'' && !(escape && piece[0] == '\\'))
    || (|piece| == 2 && piece[0] == '\\' && escape)
  }

  /** Strings have backslash escapes behind a bare E, and everywhere in the old string mode. */
  predicate Escapes(u: Alphabet, behind: string, standard: bool) {
    !standard
    || (behind != "" && behind[|behind| - 1] in {'e', 'E'} && !Attached(u, behind[..|behind| - 1]))
  }

  /** Each closing answers an opening, the last one the first, and no other character makes one. */
  predicate Closed(marks: seq<Mark>, depth: nat)
    decreases |marks|
  {
    if marks == [] then depth == 0
    else
      var rest := MarksText(marks[1..]);
      depth > 0 &&
      match marks[0]
      case Opens => Closed(marks[1..], depth + 1)
      case Closes => Closed(marks[1..], depth - 1)
      case Plain(c) => !(c == '/' && Begins(rest, '*')) && !(c == '*' && Begins(rest, '/')) && Closed(marks[1..], depth)
  }

  /** The element between what is `behind` it and what is `next`. */
  predicate Fits(u: Alphabet, behind: string, e: Element, next: string, standard: bool) {
    match e
    case Space(c) => u.space(c)
    case Symbol(c) =>
      && !u.space(c) && !u.alpha(c) && c != '_' && c != '\'' && c != '\"' && c != ';'
      && !(c == '-' && Begins(next, '-')) && !(c == '/' && Begins(next, '*'))
      && (c == '$' && !Attached(u, behind) ==> forall k :: 0 <= k < |next| && next[k] == '$' ==> !Tag(u, next[..k]))
    case Semicolon => true
    case Word(text) =>
      && text != "" && (u.alpha(text[0]) || text[0] == '_')
      && (forall i :: 0 <= i < |text| ==> Prolongs(u, text[i]))
      && (next != "" ==> !Prolongs(u, next[0]))
    case Quoted(pieces, escape) =>
      && (forall i :: 0 <= i < |pieces| ==> Piece(pieces[i], escape))
      && escape == Escapes(u, behind, standard) && !Begins(next, '\'')
    case Identifier(_) => !Begins(next, '\"')
    case Dollar(tag, body) =>
      && !Attached(u, behind) && Tag(u, tag)
      && forall k :: 0 <= k < |body| ==> !HoldsAt(body + Delimiter(tag), k, Delimiter(tag))
    case Line(text, ending) => '\n' !in text && '\r' !in text && (ending == "\n" || ending == "\r\n")
    case Block(marks) => Closed(marks, 1)
  }

  /** Elements side by side, with `after` behind the last. */
  predicate Script(u: Alphabet, behind: string, elements: seq<Element>, after: string, standard: bool)
    decreases |elements|
  {
    elements == [] ||
    (&& Fits(u, behind, elements[0], TextOf(elements[1..]) + after, standard)
     && Script(u, behind + elements[0].Text(), elements[1..], after, standard))
  }

  lemma ScriptFirst(u: Alphabet, behind: string, elements: seq<Element>, after: string, standard: bool)
    requires elements != [] && Script(u, behind, elements, after, standard)
    ensures Fits(u, behind, elements[0], TextOf(elements[1..]) + after, standard)
    ensures Script(u, behind + elements[0].Text(), elements[1..], after, standard)
    ensures TextOf(elements) + after == elements[0].Text() + (TextOf(elements[1..]) + after)
  {
    hide Fits;
  }

  // ---- One element ------------------------------------------------------------------------------------

  lemma OneStep(u: Alphabet, behind: string, rest: string, standard: bool, s: State, k: nat, after: State)
    requires rest != "" && Step(u, behind, rest, standard, s) == Move(k, after, false)
    ensures Runs(u, behind, rest, standard, s, k, after)
  {
    hide Step;
  }

  lemma RunsFirst(u: Alphabet, behind: string, rest: string, standard: bool, s: State, k: nat, mid: State, n: nat,
                  after: State)
    requires rest != "" && Step(u, behind, rest, standard, s) == Move(k, mid, false) && k <= n <= |rest|
    requires Runs(u, behind + rest[..k], rest[k..], standard, mid, n - k, after)
    ensures Runs(u, behind, rest, standard, s, n, after)
  {
    hide Step;
  }

  lemma {:induction false} RunsThen(u: Alphabet, behind: string, rest: string, standard: bool, s: State, n: nat, mid: State,
                                    more: nat, after: State)
    requires n + more <= |rest| && Runs(u, behind, rest, standard, s, n, mid)
    requires Runs(u, behind + rest[..n], rest[n..], standard, mid, more, after)
    ensures Runs(u, behind, rest, standard, s, n + more, after)
    decreases n
  {
    hide Step;
    if n == 0 {
      assert rest[..0] == "" && rest[0..] == rest && behind + "" == behind;
    } else {
      var m := Step(u, behind, rest, standard, s);
      var k := m.length;
      ReadTwice(behind, rest, k, n);
      RunsThen(u, behind + rest[..k], rest[k..], standard, m.state, n - k, mid, more, after);
    }
  }

  lemma ReadTwice(behind: string, rest: string, k: nat, n: nat)
    requires k <= n <= |rest|
    ensures behind + rest[..k] + rest[k..][..n - k] == behind + rest[..n] && rest[k..][n - k..] == rest[n..]
  {
  }

  lemma OneCharacter(u: Alphabet, behind: string, c: char, next: string, standard: bool, s: State)
    requires Sane(u) && s.mode.Normal?
    requires Fits(u, behind, Symbol(c), next, standard) || Fits(u, behind, Space(c), next, standard)
    ensures Step(u, behind, [c] + next, standard, s) == Move(1, s, false)
  {
    var rest := [c] + next;
    assert rest[0] == c && rest[1..] == next;
    assert next != "" ==> rest[1] == next[0];
    if DollarDelimiter(u, behind, rest).Some? {
      var end := FindDollar(next);
      assert rest[1..1 + end] == next[..end];
      assert Tag(u, next[..end]);
    }
  }

  lemma WordStep(u: Alphabet, behind: string, word: string, next: string, standard: bool, s: State)
    requires Sane(u) && s.mode.Normal? && Fits(u, behind, Word(word), next, standard)
    ensures Step(u, behind, word + next, standard, s) == Move(|word|, Keyword(u, u.upper(word), next, s), false)
  {
    var rest := word + next;
    WordReads(u, word, next);
    assert rest[0] == word[0] && rest[|word|..] == next;
    assert rest[0] !in PUNCTUATION;
    hide Keyword;
  }

  lemma {:induction false} WordReads(u: Alphabet, word: string, next: string)
    requires word != "" && (u.alpha(word[0]) || word[0] == '_') && forall i :: 0 <= i < |word| ==> Prolongs(u, word[i])
    requires next != "" ==> !Prolongs(u, next[0])
    ensures WordAt(u, word + next) == Some(word)
  {
    var rest := word + next;
    assert rest[1..] == word[1..] + next;
    LengthReads(u, word[1..], next);
    assert rest[..|word|] == word;
  }

  lemma {:induction false} LengthReads(u: Alphabet, word: string, next: string)
    requires forall i :: 0 <= i < |word| ==> Prolongs(u, word[i])
    requires next != "" ==> !Prolongs(u, next[0])
    ensures WordLength(u, word + next) == |word|
  {
    var n := WordLength(u, word + next);
    assert forall i :: 0 <= i < |word| ==> (word + next)[i] == word[i];
    assert next != "" ==> (word + next)[|word|] == next[0];
  }

  lemma {:induction false} InsideQuotes(u: Alphabet, behind: string, pieces: seq<string>, next: string, standard: bool,
                                        s: State)
    requires s.mode.SingleQuote? && (forall i :: 0 <= i < |pieces| ==> Piece(pieces[i], s.mode.escape))
    requires !Begins(next, '\'')
    ensures Runs(u, behind, Concat(pieces) + "'" + next, standard, s, |Concat(pieces)| + 1, s.(mode := Normal))
    decreases |pieces|
  {
    hide Step, Piece;
    var rest := Concat(pieces) + "'" + next;
    if pieces == [] {
      assert rest == "'" + next;
      ClosingStep(u, behind, next, standard, s);
      OneStep(u, behind, rest, standard, s, 1, s.(mode := Normal));
    } else {
      var inner := Concat(pieces[1..]) + "'" + next;
      var piece := pieces[0];
      assert rest == piece + inner;
      PieceStep(u, behind, piece, inner, standard, s);
      assert rest[..|piece|] == piece && rest[|piece|..] == inner;
      InsideQuotes(u, behind + piece, pieces[1..], next, standard, s);
      RunsFirst(u, behind, rest, standard, s, |piece|, s, |Concat(pieces)| + 1, s.(mode := Normal));
    }
  }

  lemma ClosingStep(u: Alphabet, behind: string, next: string, standard: bool, s: State)
    requires s.mode.SingleQuote? && !Begins(next, '\'')
    ensures Step(u, behind, "'" + next, standard, s) == Move(1, s.(mode := Normal), false)
  {
    assert next != "" ==> ("'" + next)[1] == next[0];
  }

  lemma PieceStep(u: Alphabet, behind: string, piece: string, inner: string, standard: bool, s: State)
    requires s.mode.SingleQuote? && Piece(piece, s.mode.escape)
    ensures piece != "" && Step(u, behind, piece + inner, standard, s) == Move(|piece|, s, false)
  {
    var rest := piece + inner;
    assert rest[0] == piece[0] && (|piece| == 2 ==> rest[1] == piece[1]);
  }

  lemma QuotedRuns(u: Alphabet, behind: string, pieces: seq<string>, escape: bool, next: string, standard: bool, s: State)
    requires Sane(u) && s.mode.Normal? && Fits(u, behind, Quoted(pieces, escape), next, standard)
    ensures var text := Quoted(pieces, escape).Text(); Runs(u, behind, text + next, standard, s, |text|, s)
  {
    hide Step, Runs, Escapes, Piece;
    var text := Quoted(pieces, escape).Text();
    var inside, quoted := Concat(pieces) + "'" + next, s.(mode := SingleQuote(escape));
    var rest := text + next;
    assert rest == "'" + inside;
    assert rest[..1] == "'" && rest[1..] == inside;
    QuoteOpens(u, behind, inside, standard, s);
    InsideQuotes(u, behind + "'", pieces, next, standard, quoted);
    assert quoted.(mode := Normal) == s;
    RunsFirst(u, behind, rest, standard, s, 1, quoted, |text|, s);
  }

  lemma QuoteOpens(u: Alphabet, behind: string, inside: string, standard: bool, s: State)
    requires s.mode.Normal?
    ensures Step(u, behind, "'" + inside, standard, s) == Move(1, s.(mode := SingleQuote(Escapes(u, behind, standard))), false)
  {
    var rest := "'" + inside;
    assert rest[0] == '\'';
    assert |behind| > 1 ==> behind[..|behind| - 1][|behind| - 2] == behind[|behind| - 2];
  }

  lemma IdentifierRuns(u: Alphabet, behind: string, name: string, next: string, standard: bool, s: State)
    requires s.mode.Normal? && Fits(u, behind, Identifier(name), next, standard)
    ensures var text := Identifier(name).Text(); Runs(u, behind, text + next, standard, s, |text|, s)
  {
    IdentifierIsOneToken(u, behind, name, next, standard, s);
  }

  lemma {:induction false} InsideDollar(u: Alphabet, behind: string, d: string, body: string, next: string, standard: bool,
                                        s: State)
    requires s.mode == DollarQuote(d) && d != ""
    requires forall k :: 0 <= k < |body| ==> !HoldsAt(body + d, k, d)
    ensures Runs(u, behind, body + d + next, standard, s, |body| + |d|, s.(mode := Normal))
    decreases |body|
  {
    hide Step, HoldsAt;
    var rest, closed := body + d + next, s.(mode := Normal);
    DollarStep(u, behind, d, body, next, standard, s);
    if body == "" {
      OneStep(u, behind, rest, standard, s, |d|, closed);
    } else {
      assert rest[1..] == body[1..] + d + next;
      NoneLater(body, d);
      InsideDollar(u, behind + rest[..1], d, body[1..], next, standard, s);
      RunsFirst(u, behind, rest, standard, s, 1, s, |body| + |d|, closed);
    }
  }

  lemma NoneLater(body: string, d: string)
    requires body != "" && forall k :: 0 <= k < |body| ==> !HoldsAt(body + d, k, d)
    ensures forall k :: 0 <= k < |body[1..]| ==> !HoldsAt(body[1..] + d, k, d)
  {
    forall k | 0 <= k < |body[1..]| ensures !HoldsAt(body[1..] + d, k, d) {
      assert (body[1..] + d)[k..k + |d|] == (body + d)[k + 1..k + 1 + |d|];
      assert !HoldsAt(body + d, k + 1, d);
    }
  }

  lemma DollarStep(u: Alphabet, behind: string, d: string, body: string, next: string, standard: bool, s: State)
    requires s.mode == DollarQuote(d) && d != ""
    requires body != "" ==> !HoldsAt(body + d, 0, d)
    ensures Step(u, behind, body + d + next, standard, s) ==
            if body == "" then Move(|d|, s.(mode := Normal), false) else Move(1, s, false)
  {
    var rest := body + d + next;
    assert rest[..|d|] == (body + d)[0..|d|];
    assert body == "" ==> rest[..|d|] == d;
  }

  /** A tag is found, be it empty: nothing in it ends it early. */
  lemma TagOpens(u: Alphabet, behind: string, tag: string, next: string)
    requires Sane(u) && Tag(u, tag) && !Attached(u, behind)
    ensures DollarDelimiter(u, behind, Delimiter(tag) + next) == Some(Delimiter(tag))
  {
    var rest := Delimiter(tag) + next;
    assert rest[0] == '$' && rest[1..] == tag + ("$" + next);
    var end := FindDollar(rest[1..]);
    assert rest[1..][|tag|] == '$';
    forall i | 0 <= i < |tag| ensures rest[1..][i] != '$' {
      assert rest[1..][i] == tag[i] && '$' in PUNCTUATION;
    }
    assert end == |tag|;
    assert rest[1..1 + end] == tag && rest[..end + 2] == Delimiter(tag);
  }

  lemma DollarRuns(u: Alphabet, behind: string, tag: string, body: string, next: string, standard: bool, s: State)
    requires Sane(u) && s.mode.Normal? && Fits(u, behind, Dollar(tag, body), next, standard)
    ensures var text := Dollar(tag, body).Text(); Runs(u, behind, text + next, standard, s, |text|, s)
  {
    hide Step, Runs, DollarDelimiter, HoldsAt, Attached, Tag;
    var d, text := Delimiter(tag), Dollar(tag, body).Text();
    var rest, inside, quoted := text + next, body + d + next, s.(mode := DollarQuote(d));
    assert rest == d + inside;
    DollarOpens(u, behind, tag, inside, standard, s);
    assert rest[..|d|] == d && rest[|d|..] == inside;
    InsideDollar(u, behind + d, d, body, next, standard, quoted);
    assert quoted.(mode := Normal) == s;
    RunsFirst(u, behind, rest, standard, s, |d|, quoted, |text|, s);
  }

  lemma DollarOpens(u: Alphabet, behind: string, tag: string, next: string, standard: bool, s: State)
    requires Sane(u) && Tag(u, tag) && !Attached(u, behind) && s.mode.Normal?
    ensures Step(u, behind, Delimiter(tag) + next, standard, s) ==
            Move(|Delimiter(tag)|, s.(mode := DollarQuote(Delimiter(tag))), false)
  {
    hide DollarDelimiter, Attached, Tag;
    TagOpens(u, behind, tag, next);
    assert (Delimiter(tag) + next)[0] == '$';
  }

  lemma {:induction false} InsideLine(u: Alphabet, behind: string, text: string, end: char, next: string, standard: bool,
                                      s: State)
    requires s.mode.LineComment? && '\n' !in text && '\r' !in text && (end == '\n' || end == '\r')
    ensures Runs(u, behind, text + [end] + next, standard, s, |text| + 1, s.(mode := Normal))
    decreases |text|
  {
    var rest := text + [end] + next;
    if text == "" {
      assert rest[0] == end;
      RunsFirst(u, behind, rest, standard, s, 1, s.(mode := Normal), 1, s.(mode := Normal));
    } else {
      assert rest[1..] == text[1..] + [end] + next && rest[0] == text[0];
      InsideLine(u, behind + rest[..1], text[1..], end, next, standard, s);
      RunsFirst(u, behind, rest, standard, s, 1, s, |text| + 1, s.(mode := Normal));
    }
  }

  lemma LineRuns(u: Alphabet, behind: string, text: string, ending: string, next: string, standard: bool, s: State)
    requires Sane(u) && u.space('\n') && s.mode.Normal? && Fits(u, behind, Line(text, ending), next, standard)
    ensures var all := Line(text, ending).Text(); Runs(u, behind, all + next, standard, s, |all|, s)
  {
    hide Step, Runs;
    var all := Line(text, ending).Text();
    var rest, more, n := all + next, ending[1..] + next, |text| + 3;
    assert ending == [ending[0]] + ending[1..];
    assert rest == "--" + (text + [ending[0]] + more);
    LineCloses(u, behind, text, ending[0], more, standard, s);
    if ending == "\r\n" {
      assert rest[n..] == more && more == ['\n'] + next;
      OneCharacter(u, behind + rest[..n], '\n', next, standard, s);
      OneStep(u, behind + rest[..n], more, standard, s, 1, s);
      RunsThen(u, behind, rest, standard, s, n, s, 1, s);
    }
  }

  lemma LineCloses(u: Alphabet, behind: string, text: string, end: char, more: string, standard: bool, s: State)
    requires s.mode.Normal? && '\n' !in text && '\r' !in text && (end == '\n' || end == '\r')
    ensures Runs(u, behind, "--" + (text + [end] + more), standard, s, |text| + 3, s)
  {
    hide Runs;
    var inside, comment := text + [end] + more, s.(mode := LineComment);
    var rest := "--" + inside;
    assert rest[..2] == "--" && rest[2..] == inside;
    InsideLine(u, behind + "--", text, end, more, standard, comment);
    assert comment.(mode := Normal) == s;
    RunsFirst(u, behind, rest, standard, s, 2, comment, |text| + 3, s);
  }

  lemma {:induction false} InsideBlock(u: Alphabet, behind: string, marks: seq<Mark>, depth: nat, next: string,
                                       standard: bool, s: State)
    requires s.mode == BlockComment(depth) && depth > 0 && Closed(marks, depth)
    ensures Runs(u, behind, MarksText(marks) + next, standard, s, |MarksText(marks)|, s.(mode := Normal))
    decreases |marks|
  {
    var rest := MarksText(marks) + next;
    var piece, inner := MarkText(marks[0]), MarksText(marks[1..]) + next;
    var mid := MarkState(s, marks[0], depth);
    assert rest == piece + inner;
    assert rest[..|piece|] == piece && rest[|piece|..] == inner;
    MarkStep(u, behind, marks, depth, next, standard, s);
    if mid.mode.Normal? {
      assert marks[1..] == [];
    } else {
      InsideBlock(u, behind + piece, marks[1..], mid.mode.depth, next, standard, mid);
      assert mid.(mode := Normal) == s.(mode := Normal);
    }
    hide Step;
    RunsFirst(u, behind, rest, standard, s, |piece|, mid, |MarksText(marks)|, s.(mode := Normal));
  }

  function MarkState(s: State, mark: Mark, depth: nat): State {
    match mark
    case Opens => s.(mode := BlockComment(depth + 1))
    case Closes => s.(mode := if depth <= 1 then Normal else BlockComment(depth - 1))
    case Plain(_) => s
  }

  lemma NoMark(rest: string, c: char, d: char)
    requires |rest| >= 2 && rest[0] == c && rest[1] == d && !(c == '/' && d == '*') && !(c == '*' && d == '/')
    ensures !Starts(rest, "/*") && !Starts(rest, "*/")
  {
    assert rest[..2][0] == c && rest[..2][1] == d;
  }

  lemma MarkBegins(marks: seq<Mark>, depth: nat, next: string)
    requires marks != [] && Closed(marks, depth)
    ensures var rest := MarksText(marks) + next;
      && rest != "" && depth > 0
      && (Starts(rest, "/*") <==> marks[0].Opens?) && (Starts(rest, "*/") <==> marks[0].Closes?)
  {
    hide Starts;
    var rest, inner := MarksText(marks) + next, MarksText(marks[1..]) + next;
    assert rest == MarkText(marks[0]) + inner;
    match marks[0]
    case Opens => TwoBegin('/', '*', inner);
    case Closes => TwoBegin('*', '/', inner);
    case Plain(c) =>
      TextIsNonempty(marks[1..]);
      NoMark(rest, c, MarksText(marks[1..])[0]);
  }

  lemma TextIsNonempty(marks: seq<Mark>)
    requires marks != []
    ensures MarksText(marks) != ""
  {
    assert MarksText(marks) == MarkText(marks[0]) + MarksText(marks[1..]);
  }

  lemma TwoBegin(c: char, d: char, next: string)
    requires c != d && {c, d} == {'/', '*'}
    ensures Starts([c, d] + next, [c, d]) && !Starts([c, d] + next, [d, c])
  {
    assert ([c, d] + next)[..2] == [c, d] && [c, d][0] == c && [d, c][0] == d;
  }

  lemma MarkStep(u: Alphabet, behind: string, marks: seq<Mark>, depth: nat, next: string, standard: bool, s: State)
    requires s.mode == BlockComment(depth) && marks != [] && Closed(marks, depth)
    ensures var rest := MarksText(marks) + next;
      rest != "" && Step(u, behind, rest, standard, s) == Move(|MarkText(marks[0])|, MarkState(s, marks[0], depth), false)
  {
    hide Starts, Closed, MarksText;
    MarkBegins(marks, depth, next);
  }

  lemma BlockRuns(u: Alphabet, behind: string, marks: seq<Mark>, next: string, standard: bool, s: State)
    requires s.mode.Normal? && Fits(u, behind, Block(marks), next, standard)
    ensures var text := Block(marks).Text(); Runs(u, behind, text + next, standard, s, |text|, s)
  {
    var text := Block(marks).Text();
    var rest, inside, comment := text + next, MarksText(marks) + next, s.(mode := BlockComment(1));
    assert rest == "/*" + inside;
    assert rest[..2] == "/*" && rest[2..] == inside;
    assert !Starts(rest, "--") by { assert rest[0] == '/'; }
    InsideBlock(u, behind + "/*", marks, 1, next, standard, comment);
    assert comment.(mode := Normal) == s;
    RunsFirst(u, behind, rest, standard, s, 2, comment, |text|, s);
  }

  // ---- Words and blocks -----------------------------------------------------------------------------

  /** The next word, with only blanks before it. */
  function NextWord(u: Alphabet, elements: seq<Element>): Option<string>
    decreases |elements|
  {
    if elements == [] then None
    else if elements[0].Blank() then NextWord(u, elements[1..])
    else if elements[0].Word? then Some(u.upper(elements[0].text))
    else None
  }

  /** The text ends here, or in a comment that the end of the text closes. */
  predicate Trailing(tail: string) {
    tail == "" || (|tail| >= 2 && tail[0] == '-' && tail[1] == '-' && '\n' !in tail && '\r' !in tail)
  }

  /** How the classification must treat what this grammar names. */
  ghost predicate Readable(u: Alphabet) {
    Sane(u) && u.space('\n')
  }

  lemma {:induction false} LineEnds(text: string, ending: string, next: string)
    requires '\n' !in text && '\r' !in text && (ending == "\n" || ending == "\r\n")
    ensures AfterLine(text + ending + next) == |text| + |ending|
  {
    var rest := text + ending + next;
    if text != "" {
      assert rest[0] == text[0] && rest[1..] == text[1..] + ending + next;
      LineEnds(text[1..], ending, next);
    } else if ending == "\r\n" {
      assert rest[0] == '\r' && rest[1..][0] == '\n';
    } else {
      assert rest[0] == '\n';
    }
  }

  lemma {:induction false} LineNeverEnds(text: string)
    requires '\n' !in text
    ensures AfterLine(text) == |text|
  {
    if text != "" {
      LineNeverEnds(text[1..]);
    }
  }

  lemma {:induction false} BlockEnds(marks: seq<Mark>, depth: nat, next: string)
    requires Closed(marks, depth)
    ensures AfterBlock(MarksText(marks) + next, depth) == |MarksText(marks)| && !Unclosed(MarksText(marks) + next, depth)
    decreases |marks|
  {
    if marks != [] {
      var rest, inner := MarksText(marks) + next, MarksText(marks[1..]) + next;
      var piece := MarkText(marks[0]);
      assert rest == piece + inner;
      assert rest[|piece|..] == inner;
      MarkBegins(marks, depth, next);
      BlockEnds(marks[1..], match marks[0] case Opens => depth + 1 case Closes => depth - 1 case Plain(_) => depth, next);
    }
  }

  /** Looking ahead finds the next word. */
  lemma {:induction false} LooksAhead(u: Alphabet, behind: string, elements: seq<Element>, tail: string, standard: bool)
    requires Readable(u) && Script(u, behind, elements, tail, standard) && Trailing(tail)
    ensures NextKeyword(u, TextOf(elements) + tail) == NextWord(u, elements)
    decreases |elements|
  {
    hide NextKeyword, Script, TextOf, Fits, Readable, Trailing;
    if elements == [] {
      TrailingHasNoWord(u, tail);
    } else {
      var e, next := elements[0], TextOf(elements[1..]) + tail;
      ScriptFirst(u, behind, elements, tail, standard);
      if e.Blank() {
        LooksAhead(u, behind + e.Text(), elements[1..], tail, standard);
        SkipsBlank(u, behind, e, next, standard);
      } else if e.Word? {
        WordIsNext(u, behind, e.text, next, standard);
      } else {
        NothingIsNext(u, behind, e, next, standard);
      }
    }
  }

  lemma TrailingHasNoWord(u: Alphabet, tail: string)
    requires Readable(u) && Trailing(tail)
    ensures NextKeyword(u, TextOf([]) + tail) == None
  {
    assert TextOf([]) + tail == tail;
    if tail != "" {
      assert tail[0] in PUNCTUATION && tail[..2] == "--";
      LineNeverEnds(tail[2..]);
    }
  }

  lemma SkipsBlank(u: Alphabet, behind: string, e: Element, next: string, standard: bool)
    requires Readable(u) && e.Blank() && Fits(u, behind, e, next, standard)
    ensures NextKeyword(u, e.Text() + next) == NextKeyword(u, next)
  {
    hide NextKeyword, AfterLine, AfterBlock, Starts, MarksText, Closed, Tag, HoldsAt, Attached, Piece, Escapes;
    match e
    case Space(c) =>
      SkipsSpace(u, c, next);
    case Line(text, ending) =>
      Associate("--", text, ending, next);
      SkipsLine(u, text, ending, next);
    case Block(marks) =>
      Associate("/*", MarksText(marks), "", next);
      SkipsBlock(u, marks, next);
  }

  lemma SkipsSpace(u: Alphabet, c: char, next: string)
    requires u.space(c)
    ensures NextKeyword(u, [c] + next) == NextKeyword(u, next)
  {
    assert ([c] + next)[0] == c && ([c] + next)[1..] == next;
  }

  lemma SkipsLine(u: Alphabet, text: string, ending: string, next: string)
    requires Sane(u) && '\n' !in text && '\r' !in text && (ending == "\n" || ending == "\r\n")
    ensures NextKeyword(u, "--" + (text + ending + next)) == NextKeyword(u, next)
  {
    var line := text + ending + next;
    var rest := "--" + line;
    assert rest[0] in PUNCTUATION && rest[..2] == "--" && rest[2..] == line;
    LineEnds(text, ending, next);
    assert line[|text| + |ending|..] == next;
    hide AfterLine;
  }

  lemma SkipsBlock(u: Alphabet, marks: seq<Mark>, next: string)
    requires Sane(u) && Closed(marks, 1)
    ensures NextKeyword(u, "/*" + (MarksText(marks) + next)) == NextKeyword(u, next)
  {
    var inside := MarksText(marks) + next;
    var rest := "/*" + inside;
    assert rest[0] in PUNCTUATION && rest[..2] == "/*" && rest[2..] == inside;
    BlockEnds(marks, 1, next);
    assert inside[|MarksText(marks)|..] == next;
    hide AfterBlock, Unclosed, MarksText, Closed;
  }

  lemma Associate(open: string, text: string, end: string, next: string)
    ensures open + (text + end) + next == open + (text + end + next)
    ensures end == "" ==> open + text + next == open + (text + next)
  {
  }

  lemma WordIsNext(u: Alphabet, behind: string, word: string, next: string, standard: bool)
    requires Readable(u) && Fits(u, behind, Word(word), next, standard)
    ensures NextKeyword(u, word + next) == Some(u.upper(word))
  {
    hide NextKeyword;
    var rest := word + next;
    WordReads(u, word, next);
    assert rest[0] == word[0] && rest[0] !in PUNCTUATION;
    FoundHere(u, rest, word);
  }

  lemma FoundHere(u: Alphabet, rest: string, word: string)
    requires rest != "" && rest[0] != '-' && rest[0] != '/' && !u.space(rest[0]) && WordAt(u, rest) == Some(word)
    ensures NextKeyword(u, rest) == Some(u.upper(word))
  {
    hide WordAt, AfterLine, AfterBlock;
  }

  lemma NothingIsNext(u: Alphabet, behind: string, e: Element, next: string, standard: bool)
    requires Readable(u) && !e.Blank() && !e.Word? && Fits(u, behind, e, next, standard)
    ensures NextKeyword(u, e.Text() + next) == None
  {
    hide NextKeyword, Tag, HoldsAt, Attached, Piece, Escapes;
    var rest := e.Text() + next;
    match e
    case Symbol(c) =>
      assert next != "" ==> rest[1] == next[0];
      NoWordHere(u, rest, c);
    case Semicolon => NoWordHere(u, rest, ';');
    case Quoted(_, _) => NoWordHere(u, rest, '\'');
    case Identifier(_) => NoWordHere(u, rest, '\"');
    case Dollar(_, _) => NoWordHere(u, rest, '$');
  }

  lemma NoWordHere(u: Alphabet, rest: string, c: char)
    requires Readable(u) && Begins(rest, c)
    requires c in PUNCTUATION || (!u.space(c) && !u.alpha(c) && c != '_')
    requires !(c == '-' && Begins(rest[1..], '-')) && !(c == '/' && Begins(rest[1..], '*'))
    ensures NextKeyword(u, rest) == None
  {
  }

  /** How deep in atomic blocks, and whether the last word was an END with only blanks since. */
  datatype Nesting = Nesting(depth: nat, ended: bool)

  const OUTSIDE := Nesting(0, false)

  /**
   `BEGIN ATOMIC` opens a block and END closes it; inside, BEGIN and CASE open more.  The word
   in `END CASE`, `END IF`, `END LOOP` and `END WHILE` belongs to the END.
   */
  function After(u: Alphabet, n: Nesting, e: Element, rest: seq<Element>): Nesting {
    if e.Blank() then n
    else if !e.Word? then Nesting(n.depth, false)
    else
      var word := u.upper(e.text);
      if n.ended && word in {"CASE", "IF", "LOOP", "WHILE"} then Nesting(n.depth, false)
      else if n.depth > 0 then
        if word == "BEGIN" || word == "CASE" then Nesting(n.depth + 1, false)
        else if word == "END" then Nesting(n.depth - 1, true)
        else Nesting(n.depth, false)
      else Nesting(if word == "BEGIN" && NextWord(u, rest) == Some("ATOMIC") then 1 else 0, false)
  }

  /** The lexer's stack is as deep, and it skips the word behind an END if that is one of the four. */
  predicate Stands(u: Alphabet, s: State, n: Nesting, rest: seq<Element>) {
    && s.mode.Normal? && |s.blocks| == n.depth
    && s.ignored == var word := NextWord(u, rest);
                    if n.ended && word.Some? && word.value in {"CASE", "IF", "LOOP", "WHILE"} then word else None
  }

  lemma KeywordStands(u: Alphabet, s: State, n: Nesting, e: Element, rest: seq<Element>, next: string)
    requires e.Word? && Stands(u, s, n, [e] + rest) && NextKeyword(u, next) == NextWord(u, rest)
    ensures Stands(u, Keyword(u, u.upper(e.text), next, s), After(u, n, e, rest), rest)
  {
    assert ([e] + rest)[1..] == rest;
    assert NextWord(u, [e] + rest) == Some(u.upper(e.text));
  }

  lemma OtherStands(u: Alphabet, s: State, n: Nesting, e: Element, rest: seq<Element>)
    requires !e.Word? && Stands(u, s, n, [e] + rest)
    ensures Stands(u, s, After(u, n, e, rest), rest)
  {
    assert ([e] + rest)[1..] == rest;
  }

  /** The lexer runs over every element but a semicolon that ends a statement. */
  lemma ElementRuns(u: Alphabet, behind: string, elements: seq<Element>, tail: string, standard: bool, s: State, n: Nesting)
    returns (after: State)
    requires Readable(u) && elements != [] && Script(u, behind, elements, tail, standard) && Trailing(tail)
    requires Stands(u, s, n, elements) && !(elements[0].Semicolon? && n.depth == 0)
    ensures var e, rest := elements[0], elements[1..];
      && Runs(u, behind, e.Text() + (TextOf(rest) + tail), standard, s, |e.Text()|, after)
      && Stands(u, after, After(u, n, e, rest), rest)
  {
    hide Step, Runs, Keyword, NextKeyword, NextWord, Stands, After;
    var e, rest := elements[0], elements[1..];
    var next := TextOf(rest) + tail;
    assert elements == [e] + rest;
    after := s;
    StandsNormal(u, s, n, elements);
    if e.Word? {
      LooksAhead(u, behind + e.Text(), rest, tail, standard);
      WordStep(u, behind, e.text, next, standard, s);
      after := Keyword(u, u.upper(e.text), next, s);
      KeywordStands(u, s, n, e, rest, next);
      OneStep(u, behind, e.text + next, standard, s, |e.text|, after);
    } else {
      OtherStands(u, s, n, e, rest);
      OtherRuns(u, behind, e, next, standard, s);
    }
  }

  lemma StandsNormal(u: Alphabet, s: State, n: Nesting, rest: seq<Element>)
    requires Stands(u, s, n, rest)
    ensures s.mode.Normal? && (s.blocks == [] <==> n.depth == 0)
  {
  }

  lemma OtherRuns(u: Alphabet, behind: string, e: Element, next: string, standard: bool, s: State)
    requires Readable(u) && s.mode.Normal? && !e.Word? && Fits(u, behind, e, next, standard)
    requires e.Semicolon? ==> s.blocks != []
    ensures Runs(u, behind, e.Text() + next, standard, s, |e.Text()|, s)
  {
    hide Step, Runs;
    match e
    case Space(c) =>
      OneCharacter(u, behind, c, next, standard, s);
      OneStep(u, behind, [c] + next, standard, s, 1, s);
    case Symbol(c) =>
      OneCharacter(u, behind, c, next, standard, s);
      OneStep(u, behind, [c] + next, standard, s, 1, s);
    case Semicolon =>
      SemicolonStep(u, behind, next, standard, s);
      OneStep(u, behind, ";" + next, standard, s, 1, s);
    case Quoted(pieces, escape) => QuotedRuns(u, behind, pieces, escape, next, standard, s);
    case Identifier(name) => IdentifierRuns(u, behind, name, next, standard, s);
    case Dollar(tag, body) => DollarRuns(u, behind, tag, body, next, standard, s);
    case Line(text, ending) => LineRuns(u, behind, text, ending, next, standard, s);
    case Block(marks) => BlockRuns(u, behind, marks, next, standard, s);
  }

  lemma SemicolonStep(u: Alphabet, behind: string, next: string, standard: bool, s: State)
    requires Sane(u) && s.mode.Normal?
    ensures Step(u, behind, ";" + next, standard, s) == Move(1, s, s.blocks == [])
  {
    assert (";" + next)[0] == ';' && ';' in PUNCTUATION;
  }

  // ---- Statements --------------------------------------------------------------------------------------

  /** The elements of each statement: up to and including a semicolon outside blocks, the last without one. */
  function Groups(u: Alphabet, elements: seq<Element>, n: Nesting): (r: seq<seq<Element>>)
    ensures r != []
    decreases |elements|
  {
    if elements == [] then [[]]
    else
      var e := elements[0];
      var later := Groups(u, elements[1..], After(u, n, e, elements[1..]));
      if e.Semicolon? && n.depth == 0 then [[e]] + later else [[e] + later[0]] + later[1..]
  }

  function GroupTexts(groups: seq<seq<Element>>, tail: string): (r: seq<string>)
    ensures |r| == |groups|
  {
    if groups == [] then []
    else if |groups| == 1 then [TextOf(groups[0]) + tail]
    else [TextOf(groups[0])] + GroupTexts(groups[1..], tail)
  }

  lemma {:induction false} NoCutInLine(u: Alphabet, behind: string, text: string, standard: bool, s: State)
    requires s.mode.LineComment? && '\n' !in text && '\r' !in text
    ensures FirstCut(u, behind, text, standard, s) == None
    decreases |text|
  {
    if text != "" {
      CutUnfold(u, behind, text, standard, s);
      NoCutInLine(u, behind + text[..1], text[1..], standard, s);
    }
  }

  lemma NoCutInTail(u: Alphabet, behind: string, tail: string, standard: bool, s: State)
    requires Trailing(tail) && s.mode.Normal?
    ensures FirstCut(u, behind, tail, standard, s) == None
  {
    if tail != "" {
      assert tail[..2] == "--";
      CutUnfold(u, behind, tail, standard, s);
      NoCutInLine(u, behind + tail[..2], tail[2..], standard, s.(mode := LineComment));
    }
  }

  /** What runs over belongs to the first slice. */
  lemma SlicesFrom(u: Alphabet, behind: string, rest: string, standard: bool, s: State, n: nat, after: State)
    requires n <= |rest| && Runs(u, behind, rest, standard, s, n, after)
    ensures var later := Slices(u, behind + rest[..n], rest[n..], standard, after);
      Slices(u, behind, rest, standard, s) == [rest[..n] + later[0]] + later[1..]
  {
    hide Runs, FirstCut, Slices;
    RunsOver(u, behind, rest, standard, s, n, after);
    SlicesUnfold(u, behind, rest, standard, s);
    SlicesUnfold(u, behind + rest[..n], rest[n..], standard, after);
    var cut := FirstCut(u, behind + rest[..n], rest[n..], standard, after);
    if cut.Some? {
      SlicedTwice(behind, rest, n, cut.value.0);
    } else {
      assert rest[..n] + rest[n..] == rest;
    }
  }

  lemma SlicedTwice(behind: string, rest: string, n: nat, k: nat)
    requires n + k <= |rest|
    ensures rest[..n] + rest[n..][..k] == rest[..n + k] && rest[n..][k..] == rest[n + k..]
    ensures behind + rest[..n] + rest[n..][..k] == behind + rest[..n + k]
  {
  }

  lemma SlicesUnfold(u: Alphabet, behind: string, rest: string, standard: bool, s: State)
    ensures var cut := FirstCut(u, behind, rest, standard, s);
      Slices(u, behind, rest, standard, s) ==
      if cut.None? then [rest]
      else var (n, after) := cut.value; [rest[..n]] + Slices(u, behind + rest[..n], rest[n..], standard, after)
  {
    hide FirstCut;
  }

  lemma SlicesCut(u: Alphabet, behind: string, next: string, standard: bool, s: State)
    requires Sane(u) && s.mode.Normal? && s.blocks == []
    ensures Slices(u, behind, ";" + next, standard, s) == [";"] + Slices(u, behind + ";", next, standard, s)
  {
    var rest := ";" + next;
    SemicolonStep(u, behind, next, standard, s);
    CutUnfold(u, behind, rest, standard, s);
    assert rest[..1] == ";" && rest[1..] == next;
    hide Step, FirstCut;
  }

  /** Cutting the text of a script finds exactly the texts of its groups. */
  lemma {:induction false} SlicesAreGroups(u: Alphabet, behind: string, elements: seq<Element>, tail: string, standard: bool,
                                           s: State, n: Nesting)
    requires Readable(u) && Script(u, behind, elements, tail, standard) && Trailing(tail) && Stands(u, s, n, elements)
    ensures Slices(u, behind, TextOf(elements) + tail, standard, s) == GroupTexts(Groups(u, elements, n), tail)
    decreases |elements|
  {
    hide Step, Runs, FirstCut, Stands, After, Fits, Script, TextOf, GroupTexts, Slices, Trailing, Readable, Sane;
    StandsNormal(u, s, n, elements);
    if elements == [] {
      SlicesOfTail(u, behind, tail, standard, s);
    } else {
      var e, rest := elements[0], elements[1..];
      var text, next := e.Text(), TextOf(rest) + tail;
      var whole := text + next;
      ScriptFirst(u, behind, elements, tail, standard);
      assert elements == [e] + rest;
      assert whole[..|text|] == text && whole[|text|..] == next;
      var later := Groups(u, rest, After(u, n, e, rest));
      if e.Semicolon? && n.depth == 0 {
        ReadableIsSane(u);
        SlicesCut(u, behind, next, standard, s);
        OtherStands(u, s, n, e, rest);
        SlicesAreGroups(u, behind + text, rest, tail, standard, s, After(u, n, e, rest));
        FirstAlone(e, later, tail);
      } else {
        var after := ElementRuns(u, behind, elements, tail, standard, s, n);
        SlicesFrom(u, behind, whole, standard, s, |text|, after);
        SlicesAreGroups(u, behind + text, rest, tail, standard, after, After(u, n, e, rest));
        FirstJoins(e, later, tail);
      }
    }
  }

  lemma ReadableIsSane(u: Alphabet)
    requires Readable(u)
    ensures Sane(u)
  {
  }

  lemma SlicesOfTail(u: Alphabet, behind: string, tail: string, standard: bool, s: State)
    requires Trailing(tail) && s.mode.Normal?
    ensures Slices(u, behind, TextOf([]) + tail, standard, s) == GroupTexts([[]], tail)
  {
    assert TextOf([]) + tail == tail;
    NoCutInTail(u, behind, tail, standard, s);
    hide FirstCut;
  }

  lemma FirstText(groups: seq<seq<Element>>, tail: string)
    requires groups != []
    ensures var texts := GroupTexts(groups, tail);
      && texts[0] == TextOf(groups[0]) + (if |groups| == 1 then tail else "")
      && texts[1..] == GroupTexts(groups[1..], tail)
  {
    hide TextOf;
    assert TextOf(groups[0]) + "" == TextOf(groups[0]);
    assert |groups| == 1 ==> groups[1..] == [];
  }

  lemma FirstAlone(e: Element, later: seq<seq<Element>>, tail: string)
    requires later != []
    ensures GroupTexts([[e]] + later, tail) == [e.Text()] + GroupTexts(later, tail)
  {
    var all := [[e]] + later;
    assert all[1..] == later && all[0] == [e] && [e][1..] == [];
    assert TextOf([e]) == e.Text() + TextOf([]);
    assert e.Text() + "" == e.Text();
  }

  lemma FirstJoins(e: Element, later: seq<seq<Element>>, tail: string)
    requires later != []
    ensures GroupTexts([[e] + later[0]] + later[1..], tail) ==
            [e.Text() + GroupTexts(later, tail)[0]] + GroupTexts(later, tail)[1..]
  {
    hide TextOf;
    var joined, end := [[e] + later[0]] + later[1..], if |later| == 1 then tail else "";
    assert joined[1..] == later[1..] && joined[0] == [e] + later[0];
    TextJoins(e, later[0]);
    FirstText(joined, tail);
    FirstText(later, tail);
    assert e.Text() + TextOf(later[0]) + end == e.Text() + (TextOf(later[0]) + end);
    var texts, first := GroupTexts(joined, tail), e.Text() + GroupTexts(later, tail)[0];
    hide GroupTexts;
    assert texts == [texts[0]] + texts[1..];
  }

  lemma TextJoins(e: Element, rest: seq<Element>)
    ensures TextOf([e] + rest) == e.Text() + TextOf(rest)
  {
    assert ([e] + rest)[1..] == rest;
  }

  // ---- What is kept of a slice ---------------------------------------------------------------------------

  /** Only spaces are trimmed, and all of them. */
  lemma StripTrims(u: Alphabet, text: string) returns (lead: string, trail: string)
    ensures text == lead + Strip(u, text) + trail
    ensures (forall c :: c in lead ==> u.space(c)) && (forall c :: c in trail ==> u.space(c))
    ensures Strip(u, text) != "" ==> !u.space(Strip(u, text)[0]) && !u.space(Strip(u, text)[|Strip(u, text)| - 1])
  {
    lead := StripsLeft(u, text);
    trail := StripsRight(u, StripLeft(u, text));
  }

  lemma {:induction false} StripsLeft(u: Alphabet, text: string) returns (lead: string)
    ensures text == lead + StripLeft(u, text) && forall c :: c in lead ==> u.space(c)
    ensures StripLeft(u, text) != "" ==> !u.space(StripLeft(u, text)[0])
    decreases |text|
  {
    lead := "";
    if text != "" && u.space(text[0]) {
      lead := StripsLeft(u, text[1..]);
      lead := [text[0]] + lead;
    }
  }

  lemma {:induction false} StripsRight(u: Alphabet, text: string) returns (trail: string)
    ensures text == StripRight(u, text) + trail && forall c :: c in trail ==> u.space(c)
    ensures StripRight(u, text) != "" ==>
      !u.space(StripRight(u, text)[|StripRight(u, text)| - 1]) && StripRight(u, text)[0] == text[0]
    decreases |text|
  {
    trail := "";
    if text != "" && u.space(text[|text| - 1]) {
      trail := StripsRight(u, text[..|text| - 1]);
      trail := trail + [text[|text| - 1]];
    }
  }

  lemma {:induction false} LineSpaceAtEnd(text: string, c: char)
    ensures AfterLine(text + [c]) == if '\n' in text then AfterLine(text) else |text| + 1
    ensures '\n' !in text ==> AfterLine(text) == |text|
    decreases |text|
  {
    if text != "" {
      assert (text + [c])[1..] == text[1..] + [c];
      LineSpaceAtEnd(text[1..], c);
    } else {
      assert ([c])[1..] == "";
    }
  }

  lemma {:induction false} BlockSpaceAtEnd(text: string, depth: nat, c: char)
    requires c != '/' && c != '*'
    ensures Unclosed(text + [c], depth) == Unclosed(text, depth)
    ensures !Unclosed(text, depth) ==> AfterBlock(text + [c], depth) == AfterBlock(text, depth)
    decreases |text|
  {
    var more := text + [c];
    if text == "" {
      assert more[1..] == "";
      assert !Starts(more, "/*") && !Starts(more, "*/");
      assert depth > 0 ==> Unclosed(more[1..], depth);
    } else if depth > 0 {
      SameStart(text, c, "/*");
      SameStart(text, c, "*/");
      if Starts(text, "/*") {
        assert more[2..] == text[2..] + [c];
        BlockSpaceAtEnd(text[2..], depth + 1, c);
      } else if Starts(text, "*/") {
        assert more[2..] == text[2..] + [c];
        BlockSpaceAtEnd(text[2..], depth - 1, c);
      } else {
        assert more[1..] == text[1..] + [c];
        BlockSpaceAtEnd(text[1..], depth, c);
      }
    }
  }

  lemma SameStart(text: string, c: char, prefix: string)
    requires |prefix| == 2 && c != prefix[1]
    ensures Starts(text + [c], prefix) == Starts(text, prefix)
  {
    var more := text + [c];
    if |text| >= 2 {
      assert more[..2] == text[..2];
    } else if |text| == 1 {
      assert more[..2][1] == c;
    }
  }

  /** A space at the end does not make SQL of what is none. */
  lemma {:induction false} SpaceAtEnd(u: Alphabet, text: string, c: char)
    requires Sane(u) && u.space(c)
    ensures IsSqlEmpty(u, text + [c]) == IsSqlEmpty(u, text)
    decreases |text|
  {
    hide AfterLine, AfterBlock, Unclosed, Starts;
    var more := text + [c];
    assert '-' in PUNCTUATION && '/' in PUNCTUATION && '*' in PUNCTUATION;
    if text == "" {
      assert more[1..] == "" && IsSqlEmpty(u, more[1..]);
    } else {
      assert more[0] == text[0];
      SameStart(text, c, "--");
      SameStart(text, c, "/*");
      if u.space(text[0]) || text[0] == ';' {
        assert more[1..] == text[1..] + [c];
        SpaceAtEnd(u, text[1..], c);
      } else if Starts(text, "--") {
        SpaceAfterLine(u, text, c);
      } else if Starts(text, "/*") {
        SpaceAfterBlock(u, text, c);
      }
    }
  }

  lemma SpaceAfterLine(u: Alphabet, text: string, c: char)
    requires Sane(u) && u.space(c) && Starts(text, "--") && Starts(text + [c], "--")
    ensures IsSqlEmpty(u, text + [c]) == IsSqlEmpty(u, text)
    decreases |text|, 0
  {
    var x := text[2..];
    assert text[..2][0] == '-' && '-' in PUNCTUATION;
    assert (text + [c])[2..] == x + [c];
    LineSpaceAtEnd(x, c);
    var n := AfterLine(x);
    hide AfterLine;
    if '\n' in x {
      assert (x + [c])[n..] == x[n..] + [c];
      SpaceAtEnd(u, x[n..], c);
    } else {
      assert (x + [c])[|x| + 1..] == "" && x[n..] == "" && IsSqlEmpty(u, "");
    }
  }

  lemma SpaceAfterBlock(u: Alphabet, text: string, c: char)
    requires Sane(u) && u.space(c) && Starts(text, "/*") && Starts(text + [c], "/*")
    ensures IsSqlEmpty(u, text + [c]) == IsSqlEmpty(u, text)
    decreases |text|, 0
  {
    var x := text[2..];
    assert text[..2][0] == '/' && '/' in PUNCTUATION && '*' in PUNCTUATION;
    assert (text + [c])[2..] == x + [c];
    BlockSpaceAtEnd(x, 1, c);
    var n := AfterBlock(x, 1);
    hide AfterBlock, Unclosed;
    if !Unclosed(x, 1) {
      assert (x + [c])[n..] == x[n..] + [c];
      SpaceAtEnd(u, x[n..], c);
    }
  }

  lemma {:induction false} StripKeepsLeft(u: Alphabet, text: string)
    ensures IsSqlEmpty(u, StripLeft(u, text)) == IsSqlEmpty(u, text)
    decreases |text|
  {
    if text != "" && u.space(text[0]) {
      StripKeepsLeft(u, text[1..]);
    }
  }

  lemma {:induction false} StripKeepsRight(u: Alphabet, text: string)
    requires Sane(u)
    ensures IsSqlEmpty(u, StripRight(u, text)) == IsSqlEmpty(u, text)
    decreases |text|
  {
    hide IsSqlEmpty;
    if text != "" && u.space(text[|text| - 1]) {
      var init, c := text[..|text| - 1], text[|text| - 1];
      assert text == init + [c];
      StripKeepsRight(u, init);
      SpaceAtEnd(u, init, c);
    }
  }

  /** Comments, spaces and stray semicolons hold no statement. */
  predicate Idle(group: seq<Element>) {
    forall i :: 0 <= i < |group| ==> group[i].Blank() || group[i].Semicolon?
  }

  lemma {:induction false} EmptyIsIdle(u: Alphabet, behind: string, group: seq<Element>, tail: string, standard: bool)
    requires Readable(u) && Script(u, behind, group, tail, standard) && Trailing(tail)
    ensures IsSqlEmpty(u, TextOf(group) + tail) <==> Idle(group)
    decreases |group|
  {
    hide IsSqlEmpty, Idle, Fits, Script, TextOf, Readable, Trailing;
    if group == [] {
      NothingIsIdle(u, tail);
    } else {
      var e, rest := group[0], group[1..];
      var next := TextOf(rest) + tail;
      ScriptFirst(u, behind, group, tail, standard);
      FirstIsIdle(group);
      if e.Blank() || e.Semicolon? {
        EmptyIsIdle(u, behind + e.Text(), rest, tail, standard);
        BlankIsEmpty(u, behind, e, next, standard);
      } else {
        ElementIsSql(u, behind, e, next, standard);
      }
    }
  }

  lemma NothingIsIdle(u: Alphabet, tail: string)
    requires Readable(u) && Trailing(tail)
    ensures IsSqlEmpty(u, TextOf([]) + tail) && Idle([])
  {
    assert TextOf([]) + tail == tail;
    TailIsEmpty(u, tail);
  }

  lemma FirstIsIdle(group: seq<Element>)
    requires group != []
    ensures Idle(group) <==> (group[0].Blank() || group[0].Semicolon?) && Idle(group[1..])
  {
    var rest := group[1..];
    assert forall i :: 0 <= i < |rest| ==> rest[i] == group[i + 1];
    assert forall i :: 0 < i < |group| ==> group[i] == rest[i - 1];
  }

  lemma TailIsEmpty(u: Alphabet, tail: string)
    requires Readable(u) && Trailing(tail)
    ensures IsSqlEmpty(u, tail)
  {
    if tail != "" {
      assert tail[0] in PUNCTUATION && tail[..2] == "--";
      LineNeverEnds(tail[2..]);
    }
  }

  lemma BlankIsEmpty(u: Alphabet, behind: string, e: Element, next: string, standard: bool)
    requires Readable(u) && (e.Blank() || e.Semicolon?) && Fits(u, behind, e, next, standard)
    ensures IsSqlEmpty(u, e.Text() + next) == IsSqlEmpty(u, next)
  {
    hide IsSqlEmpty, AfterLine, AfterBlock, Unclosed, Starts, MarksText, Closed, Tag, HoldsAt, Attached, Piece, Escapes;
    match e
    case Space(c) => SpaceIsEmpty(u, c, next);
    case Semicolon => SpaceIsEmpty(u, ';', next);
    case Line(text, ending) =>
      Associate("--", text, ending, next);
      LineIsEmpty(u, text, ending, next);
    case Block(marks) =>
      Associate("/*", MarksText(marks), "", next);
      BlockIsEmpty(u, marks, next);
  }

  lemma SpaceIsEmpty(u: Alphabet, c: char, next: string)
    requires u.space(c) || c == ';'
    ensures IsSqlEmpty(u, [c] + next) == IsSqlEmpty(u, next)
  {
    assert ([c] + next)[0] == c && ([c] + next)[1..] == next;
  }

  lemma LineIsEmpty(u: Alphabet, text: string, ending: string, next: string)
    requires Sane(u) && '\n' !in text && '\r' !in text && (ending == "\n" || ending == "\r\n")
    ensures IsSqlEmpty(u, "--" + (text + ending + next)) == IsSqlEmpty(u, next)
  {
    var line := text + ending + next;
    var rest := "--" + line;
    assert rest[0] in PUNCTUATION && rest[..2] == "--" && rest[2..] == line;
    LineEnds(text, ending, next);
    assert line[|text| + |ending|..] == next;
    hide AfterLine;
  }

  lemma BlockIsEmpty(u: Alphabet, marks: seq<Mark>, next: string)
    requires Sane(u) && Closed(marks, 1)
    ensures IsSqlEmpty(u, "/*" + (MarksText(marks) + next)) == IsSqlEmpty(u, next)
  {
    var inside := MarksText(marks) + next;
    var rest := "/*" + inside;
    assert rest[0] in PUNCTUATION && rest[..2] == "/*" && rest[2..] == inside;
    BlockEnds(marks, 1, next);
    assert inside[|MarksText(marks)|..] == next;
    hide AfterBlock, Unclosed, MarksText, Closed;
  }

  lemma ElementIsSql(u: Alphabet, behind: string, e: Element, next: string, standard: bool)
    requires Readable(u) && !e.Blank() && !e.Semicolon? && Fits(u, behind, e, next, standard)
    ensures !IsSqlEmpty(u, e.Text() + next)
  {
    hide IsSqlEmpty, Tag, HoldsAt, Attached, Piece, Escapes;
    var rest := e.Text() + next;
    match e
    case Symbol(c) =>
      assert next != "" ==> rest[1] == next[0];
      SqlHere(u, rest, c);
    case Word(word) =>
      assert rest[0] == word[0] && word[0] !in PUNCTUATION;
      SqlHere(u, rest, word[0]);
    case Quoted(_, _) => SqlHere(u, rest, '\'');
    case Identifier(_) => SqlHere(u, rest, '\"');
    case Dollar(_, _) => SqlHere(u, rest, '$');
  }

  lemma SqlHere(u: Alphabet, rest: string, c: char)
    requires Readable(u) && Begins(rest, c) && !u.space(c) && c != ';'
    requires !(c == '-' && Begins(rest[1..], '-')) && !(c == '/' && Begins(rest[1..], '*'))
    ensures !IsSqlEmpty(u, rest)
  {
  }

  /** The statements of a script, each trimmed, with the number of characters consumed through it. */
  function Expected(u: Alphabet, groups: seq<seq<Element>>, tail: string, offset: nat): seq<(string, nat)> {
    if groups == [] then []
    else
      var text := TextOf(groups[0]) + if |groups| == 1 then tail else "";
      (if Idle(groups[0]) then [] else [(Strip(u, text), offset + |text|)])
      + Expected(u, groups[1..], tail, offset + |text|)
  }

  /** Each group is a script of its own. */
  predicate GroupsFit(u: Alphabet, behind: string, groups: seq<seq<Element>>, tail: string, standard: bool)
    decreases |groups|
  {
    groups == [] ||
    (&& Script(u, behind, groups[0], if |groups| == 1 then tail else "", standard)
     && GroupsFit(u, behind + TextOf(groups[0]), groups[1..], tail, standard))
  }

  lemma FitsLess(u: Alphabet, behind: string, e: Element, next: string, less: string, standard: bool)
    requires Fits(u, behind, e, next, standard) && less <= next
    ensures Fits(u, behind, e, less, standard)
  {
    hide Tag, Attached, HoldsAt, Closed, Piece, Escapes;
    if e.Symbol? && e.c == '$' && !Attached(u, behind) {
      forall k | 0 <= k < |less| && less[k] == '$' ensures !Tag(u, less[..k]) {
        assert less[..k] == next[..k];
      }
    }
  }

  lemma {:induction false} GroupsFitAll(u: Alphabet, behind: string, elements: seq<Element>, tail: string, standard: bool,
                                        n: Nesting)
    requires Script(u, behind, elements, tail, standard)
    ensures var groups := Groups(u, elements, n);
      && GroupsFit(u, behind, groups, tail, standard)
      && TextOf(groups[0]) + (if |groups| == 1 then tail else "") <= TextOf(elements) + tail
    decreases |elements|
  {
    hide After, Fits, Script, TextOf, GroupsFit;
    if elements == [] {
      NoElementsFit(u, behind, tail, standard);
    } else {
      var e, rest := elements[0], elements[1..];
      var later := Groups(u, rest, After(u, n, e, rest));
      var end := if |later| == 1 then tail else "";
      ScriptFirst(u, behind, elements, tail, standard);
      GroupsFitAll(u, behind + e.Text(), rest, tail, standard, After(u, n, e, rest));
      if e.Semicolon? && n.depth == 0 {
        FitsLess(u, behind, e, TextOf(rest) + tail, "", standard);
        AloneFits(u, behind, e, later, tail, standard);
      } else {
        FitsLess(u, behind, e, TextOf(rest) + tail, TextOf(later[0]) + end, standard);
        JoinedFits(u, behind, e, later, tail, standard);
        assert e.Text() + TextOf(later[0]) + end == e.Text() + (TextOf(later[0]) + end);
      }
    }
  }

  lemma NoElementsFit(u: Alphabet, behind: string, tail: string, standard: bool)
    ensures GroupsFit(u, behind, [[]], tail, standard)
  {
    assert Script(u, behind, [], tail, standard);
    assert GroupsFit(u, behind + TextOf([]), [], tail, standard);
    var groups: seq<seq<Element>> := [[]];
    assert groups[1..] == [];
  }

  lemma AloneFits(u: Alphabet, behind: string, e: Element, later: seq<seq<Element>>, tail: string, standard: bool)
    requires later != [] && Fits(u, behind, e, "", standard) && GroupsFit(u, behind + e.Text(), later, tail, standard)
    ensures GroupsFit(u, behind, [[e]] + later, tail, standard) && TextOf([e]) + "" == e.Text()
  {
    hide Fits;
    var all := [[e]] + later;
    assert all[0] == [e] && all[1..] == later && [e][1..] == [];
    assert TextOf([]) + "" == "" && e.Text() + "" == e.Text();
    assert TextOf([e]) == e.Text() + TextOf([]);
    assert Script(u, behind, [e], "", standard);
    hide Script, TextOf;
    assert GroupsFit(u, behind, all, tail, standard);
  }

  lemma JoinedFits(u: Alphabet, behind: string, e: Element, later: seq<seq<Element>>, tail: string, standard: bool)
    requires later != [] && GroupsFit(u, behind + e.Text(), later, tail, standard)
    requires Fits(u, behind, e, TextOf(later[0]) + (if |later| == 1 then tail else ""), standard)
    ensures GroupsFit(u, behind, [[e] + later[0]] + later[1..], tail, standard)
    ensures TextOf([e] + later[0]) == e.Text() + TextOf(later[0])
  {
    hide Fits;
    var joined, first := [[e] + later[0]] + later[1..], [e] + later[0];
    var end := if |later| == 1 then tail else "";
    assert joined[0] == first && joined[1..] == later[1..] && |joined| == |later|;
    assert first[0] == e && first[1..] == later[0];
    assert TextOf(first) == e.Text() + TextOf(later[0]);
    assert Script(u, behind, first, end, standard);
    assert behind + e.Text() + TextOf(later[0]) == behind + TextOf(first);
    assert GroupsFit(u, behind + TextOf(first), joined[1..], tail, standard);
    assert (if |joined| == 1 then tail else "") == end;
    hide Script, TextOf;
    assert GroupsFit(u, behind, joined, tail, standard);
  }

  lemma {:induction false} KeptAsExpected(u: Alphabet, behind: string, groups: seq<seq<Element>>, tail: string,
                                          standard: bool, offset: nat)
    requires Readable(u) && GroupsFit(u, behind, groups, tail, standard) && Trailing(tail)
    ensures Kept(u, GroupTexts(groups, tail), offset) == Expected(u, groups, tail, offset)
    decreases |groups|
  {
    hide Script, Idle, IsSqlEmpty, Strip, TextOf, Keep, Readable, Trailing;
    if groups != [] {
      var end := if |groups| == 1 then tail else "";
      var text := TextOf(groups[0]) + end;
      NothingTrails();
      KeepsStatement(u, behind, groups[0], end, standard);
      KeptAsExpected(u, behind + TextOf(groups[0]), groups[1..], tail, standard, offset + |text|);
      FirstText(groups, tail);
    }
  }

  lemma NothingTrails()
    ensures Trailing("")
  {
  }

  lemma KeepsStatement(u: Alphabet, behind: string, group: seq<Element>, end: string, standard: bool)
    requires Readable(u) && Script(u, behind, group, end, standard) && Trailing(end)
    ensures Keep(u, TextOf(group) + end) == if Idle(group) then None else Some(Strip(u, TextOf(group) + end))
  {
    var text := TextOf(group) + end;
    EmptyIsIdle(u, behind, group, end, standard);
    StripKeepsLeft(u, text);
    StripKeepsRight(u, StripLeft(u, text));
    assert IsSqlEmpty(u, "");
    hide IsSqlEmpty, Script, Idle;
  }

  /**
   A script splits into its statements: what stands between the semicolons outside atomic
   blocks, trimmed, unless it is only spaces and comments.
   */
  lemma ScriptSplits(u: Alphabet, elements: seq<Element>, tail: string, standard: bool)
    requires Readable(u) && Script(u, "", elements, tail, standard) && Trailing(tail)
    ensures Statements(u, TextOf(elements) + tail, standard) == Expected(u, Groups(u, elements, OUTSIDE), tail, 0)
  {
    hide Script, Groups, Slices, GroupsFit;
    SlicesAreGroups(u, "", elements, tail, standard, START, OUTSIDE);
    GroupsFitAll(u, "", elements, tail, standard, OUTSIDE);
    KeptAsExpected(u, "", Groups(u, elements, OUTSIDE), tail, standard, 0);
  }

  // ---- Atomic blocks as trees ---------------------------------------------------------------------------

  /** A block body: anything but the three words, or what stands between an opening word and its END. */
  datatype Tree = Leaf(e: Element) | Nest(opener: string, inner: seq<Tree>, closer: string, suffix: seq<Element>)

  function Flat(tree: Tree): (r: seq<Element>)
    ensures r != []
  {
    match tree
    case Leaf(e) => [e]
    case Nest(opener, inner, closer, suffix) => [Word(opener)] + (FlatAll(inner) + ([Word(closer)] + suffix))
  }

  function FlatAll(trees: seq<Tree>): seq<Element> {
    if trees == [] then [] else Flat(trees[0]) + FlatAll(trees[1..])
  }

  /** Blanks and the word CASE, as in `END CASE`. */
  predicate CaseSuffix(u: Alphabet, suffix: seq<Element>) {
    suffix == [] ||
    if suffix[0].Blank() then suffix[1..] != [] && CaseSuffix(u, suffix[1..])
    else suffix[0].Word? && u.upper(suffix[0].text) == "CASE" && suffix[1..] == []
  }

  predicate Proper(u: Alphabet, tree: Tree)
    decreases tree, 0
  {
    match tree
    case Leaf(e) => e.Word? ==> u.upper(e.text) !in {"BEGIN", "CASE", "END"}
    case Nest(opener, inner, closer, suffix) =>
      && u.upper(opener) in {"BEGIN", "CASE"} && u.upper(closer) == "END"
      && ProperAll(u, inner) && CaseSuffix(u, suffix)
  }

  /** A CASE never follows a bare END, or it would read as its suffix. */
  predicate ProperAll(u: Alphabet, trees: seq<Tree>)
    decreases trees, 1
  {
    trees == [] ||
    (&& Proper(u, trees[0]) && ProperAll(u, trees[1..])
     && (trees[0].Nest? && trees[0].suffix == [] ==> NextWord(u, FlatAll(trees[1..])) != Some("CASE")))
  }

  /** The nesting behind some elements. */
  function Through(u: Alphabet, n: Nesting, elements: seq<Element>, rest: seq<Element>): Nesting
    decreases |elements|
  {
    if elements == [] then n
    else Through(u, After(u, n, elements[0], elements[1..] + rest), elements[1..], rest)
  }

  /** No semicolon among the elements ends a statement. */
  predicate Holds(u: Alphabet, n: Nesting, elements: seq<Element>, rest: seq<Element>)
    decreases |elements|
  {
    elements == [] ||
    (&& !(elements[0].Semicolon? && n.depth == 0)
     && Holds(u, After(u, n, elements[0], elements[1..] + rest), elements[1..], rest))
  }

  lemma {:induction false} HeldTogether(u: Alphabet, n: Nesting, elements: seq<Element>, rest: seq<Element>)
    requires Holds(u, n, elements, rest)
    ensures var later := Groups(u, rest, Through(u, n, elements, rest));
      Groups(u, elements + rest, n) == [elements + later[0]] + later[1..]
    decreases |elements|
  {
    hide After;
    var later := Groups(u, rest, Through(u, n, elements, rest));
    if elements == [] {
      assert elements + rest == rest && elements + later[0] == later[0];
    } else {
      var e := elements[0];
      assert (elements + rest)[1..] == elements[1..] + rest;
      HeldTogether(u, After(u, n, e, elements[1..] + rest), elements[1..], rest);
      assert [e] + (elements[1..] + later[0]) == elements + later[0];
    }
  }

  lemma {:induction false} HoldsJoin(u: Alphabet, n: Nesting, a: seq<Element>, b: seq<Element>, rest: seq<Element>)
    requires Holds(u, n, a, b + rest) && Holds(u, Through(u, n, a, b + rest), b, rest)
    ensures Holds(u, n, a + b, rest)
    ensures Through(u, n, a + b, rest) == Through(u, Through(u, n, a, b + rest), b, rest)
    decreases |a|
  {
    hide After;
    if a == [] {
      assert a + b == b;
    } else {
      assert (a + b)[1..] == a[1..] + b;
      assert a[1..] + b + rest == a[1..] + (b + rest);
      HoldsJoin(u, After(u, n, a[0], a[1..] + (b + rest)), a[1..], b, rest);
    }
  }

  lemma OneHolds(u: Alphabet, n: Nesting, e: Element, rest: seq<Element>)
    requires n.depth > 0
    ensures Holds(u, n, [e], rest) && Through(u, n, [e], rest) == After(u, n, e, rest)
  {
    assert [e][1..] == [] && [] + rest == rest;
  }

  lemma {:induction false} SuffixHolds(u: Alphabet, n: Nesting, suffix: seq<Element>, rest: seq<Element>)
    requires n.ended && CaseSuffix(u, suffix)
    ensures Holds(u, n, suffix, rest)
    ensures Through(u, n, suffix, rest) == Nesting(n.depth, suffix == [])
    decreases |suffix|
  {
    if suffix != [] && suffix[0].Blank() {
      SuffixHolds(u, n, suffix[1..], rest);
    }
  }

  /** A tree inside a block leaves the depth as it found it. */
  lemma {:induction false} TreeHolds(u: Alphabet, n: Nesting, tree: Tree, rest: seq<Element>)
    requires Proper(u, tree) && n.depth > 0 && (n.ended ==> NextWord(u, Flat(tree)) != Some("CASE"))
    ensures Holds(u, n, Flat(tree), rest)
    ensures Through(u, n, Flat(tree), rest).depth == n.depth
    ensures Through(u, n, Flat(tree), rest).ended <==>
      if tree.Leaf? then n.ended && tree.e.Blank() else tree.suffix == []
    decreases tree, 0
  {
    match tree
    case Leaf(e) =>
      OneHolds(u, n, e, rest);
    case Nest(opener, inner, closer, suffix) =>
      NestHolds(u, n, opener, inner, closer, suffix, rest);
  }

  lemma NestHolds(u: Alphabet, n: Nesting, opener: string, inner: seq<Tree>, closer: string, suffix: seq<Element>,
                  rest: seq<Element>)
    requires u.upper(opener) in {"BEGIN", "CASE"} && u.upper(closer) == "END"
    requires ProperAll(u, inner) && CaseSuffix(u, suffix)
    requires n.depth > 0 && (n.ended ==> u.upper(opener) != "CASE")
    ensures var flat := [Word(opener)] + (FlatAll(inner) + ([Word(closer)] + suffix));
      Holds(u, n, flat, rest) && Through(u, n, flat, rest) == Nesting(n.depth, suffix == [])
    decreases inner, 2
  {
    hide Holds, Through, NextWord, CaseSuffix;
    var inside := Nesting(n.depth + 1, false);
    var a, b, c := [Word(opener)], FlatAll(inner), [Word(closer)];
    OneHolds(u, n, Word(opener), b + (c + suffix) + rest);
    var m := TreesHold(u, inside, inner, c + suffix + rest);
    OneHolds(u, m, Word(closer), suffix + rest);
    SuffixHolds(u, Nesting(n.depth, true), suffix, rest);
    assert b + (c + suffix) + rest == b + ((c + suffix) + rest);
    assert c + suffix + rest == c + (suffix + rest);
    HoldsJoin(u, m, c, suffix, rest);
    HoldsJoin(u, inside, b, c + suffix, rest);
    HoldsJoin(u, n, a, b + (c + suffix), rest);
  }

  lemma {:induction false} TreesHold(u: Alphabet, n: Nesting, trees: seq<Tree>, rest: seq<Element>) returns (m: Nesting)
    requires ProperAll(u, trees) && n.depth > 0 && (n.ended ==> NextWord(u, FlatAll(trees)) != Some("CASE"))
    ensures Holds(u, n, FlatAll(trees), rest) && m == Through(u, n, FlatAll(trees), rest) && m.depth == n.depth
    decreases trees, 1
  {
    m := n;
    if trees != [] {
      var first, later := Flat(trees[0]), FlatAll(trees[1..]);
      WordFirst(u, first, later);
      TreeHolds(u, n, trees[0], later + rest);
      var mid := Through(u, n, first, later + rest);
      m := TreesHold(u, mid, trees[1..], rest);
      HoldsJoin(u, n, first, later, rest);
    }
  }

  /** The next word of a sequence is the first part's, or the second's behind blanks. */
  lemma {:induction false} WordFirst(u: Alphabet, a: seq<Element>, b: seq<Element>)
    ensures NextWord(u, a).Some? ==> NextWord(u, a + b) == NextWord(u, a)
    ensures (forall i :: 0 <= i < |a| ==> a[i].Blank()) ==> NextWord(u, a + b) == NextWord(u, b)
    decreases |a|
  {
    if a == [] {
      assert a + b == b;
    } else {
      assert (a + b)[1..] == a[1..] + b;
      WordFirst(u, a[1..], b);
    }
  }

  /** `BEGIN ATOMIC`, a body of properly nested blocks and semicolons, END: one statement holds it all. */
  lemma AtomicBlockHolds(u: Alphabet, begin: string, gap: seq<Element>, atomic: string, body: seq<Tree>, end: string,
                         rest: seq<Element>)
    requires u.upper(begin) == "BEGIN" && u.upper(atomic) == "ATOMIC" && u.upper(end) == "END"
    requires (forall i :: 0 <= i < |gap| ==> gap[i].Blank()) && ProperAll(u, body)
    ensures var block := [Word(begin)] + (gap + ([Word(atomic)] + (FlatAll(body) + [Word(end)])));
      var later := Groups(u, rest, Nesting(0, true));
      Groups(u, block + rest, OUTSIDE) == [block + later[0]] + later[1..]
  {
    hide Holds, Through, Groups, FlatAll, ProperAll;
    var inside := Nesting(1, false);
    var a, c, d, e := [Word(begin)], [Word(atomic)], FlatAll(body), [Word(end)];
    var block := a + (gap + (c + (d + e)));
    AtomicOpens(u, begin, gap, atomic, d + e + rest);
    assert gap + (c + (d + e)) + rest == gap + ([Word(atomic)] + (d + e + rest));
    assert (c + (d + e)) + rest == [Word(atomic)] + (d + e + rest);
    GapHolds(u, inside, gap, c + (d + e) + rest);
    OneHolds(u, inside, Word(atomic), d + e + rest);
    var m := TreesHold(u, inside, body, e + rest);
    OneHolds(u, m, Word(end), rest);
    assert d + e + rest == d + (e + rest);
    HoldsJoin(u, inside, d, e, rest);
    HoldsJoin(u, inside, c, d + e, rest);
    HoldsJoin(u, inside, gap, c + (d + e), rest);
    HoldsJoin(u, OUTSIDE, a, gap + (c + (d + e)), rest);
    HeldTogether(u, OUTSIDE, block, rest);
  }

  lemma AtomicOpens(u: Alphabet, begin: string, gap: seq<Element>, atomic: string, rest: seq<Element>)
    requires u.upper(begin) == "BEGIN" && u.upper(atomic) == "ATOMIC" && forall i :: 0 <= i < |gap| ==> gap[i].Blank()
    ensures var behind := gap + ([Word(atomic)] + rest);
      Holds(u, OUTSIDE, [Word(begin)], behind) && Through(u, OUTSIDE, [Word(begin)], behind) == Nesting(1, false)
  {
    var behind := gap + ([Word(atomic)] + rest);
    WordFirst(u, gap, [Word(atomic)] + rest);
    assert NextWord(u, behind) == Some("ATOMIC");
    assert [Word(begin)][1..] == [] && [] + behind == behind;
  }

  lemma {:induction false} GapHolds(u: Alphabet, n: Nesting, gap: seq<Element>, rest: seq<Element>)
    requires forall i :: 0 <= i < |gap| ==> gap[i].Blank()
    ensures Holds(u, n, gap, rest) && Through(u, n, gap, rest) == n
    decreases |gap|
  {
    if gap != [] {
      GapHolds(u, n, gap[1..], rest);
    }
  }
}
