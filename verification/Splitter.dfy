/**
 Splitting a PostgreSQL script.  The cuts partition the text, and restarting the lexer
 behind each statement, as the migrator does, finds the same statements as one pass.
 */
module Splitter {
  import opened Options
  import opened Lexer

  /** Up to and including the next cut, and the state there. */
  function FirstCut(u: Alphabet, behind: string, rest: string, standard: bool, s: State): (r: Option<(nat, State)>)
    ensures r.Some? ==> 0 < r.value.0 <= |rest| && r.value.1.mode.Normal? && r.value.1.blocks == []
    ensures r.Some? ==> rest[r.value.0 - 1] == ';'
    decreases |rest|
  {
    if rest == "" then None
    else
      var m := Step(u, behind, rest, standard, s);
      if m.cut then Some((1, m.state))
      else
        match FirstCut(u, behind + rest[..m.length], rest[m.length..], standard, m.state)
        case None => None
        case Some((n, after)) => Some((m.length + n, after))
  }

  /** The consecutive slices between cuts, the last one being what is left. */
  function Slices(u: Alphabet, behind: string, rest: string, standard: bool, s: State): (r: seq<string>)
    ensures r != []
    decreases |rest|
  {
    match FirstCut(u, behind, rest, standard, s)
    case None => [rest]
    case Some((n, after)) => [rest[..n]] + Slices(u, behind + rest[..n], rest[n..], standard, after)
  }

  function Concat(parts: seq<string>): string {
    if parts == [] then "" else parts[0] + Concat(parts[1..])
  }

  /** The slices are the whole text, in order. */
  lemma {:induction false} SlicesPartition(u: Alphabet, behind: string, rest: string, standard: bool, s: State)
    ensures Concat(Slices(u, behind, rest, standard, s)) == rest
    decreases |rest|
  {
    match FirstCut(u, behind, rest, standard, s)
    case None =>
      assert [rest][1..] == [];
    case Some((n, after)) =>
      var tail := Slices(u, behind + rest[..n], rest[n..], standard, after);
      SlicesPartition(u, behind + rest[..n], rest[n..], standard, after);
      assert ([rest[..n]] + tail)[1..] == tail;
      assert rest[..n] + rest[n..] == rest;
  }

  // ---- Statements -----------------------------------------------------------------------------

  function StripLeft(u: Alphabet, text: string): string {
    if text != "" && u.space(text[0]) then StripLeft(u, text[1..]) else text
  }

  function StripRight(u: Alphabet, text: string): string {
    if text != "" && u.space(text[|text| - 1]) then StripRight(u, text[..|text| - 1]) else text
  }

  function Strip(u: Alphabet, text: string): string {
    StripRight(u, StripLeft(u, text))
  }

  /** Whether a block comment opened `depth` levels deep is never closed. */
  predicate Unclosed(rest: string, depth: nat) {
    if depth == 0 then false
    else if rest == "" then true
    else if Starts(rest, "/*") then Unclosed(rest[2..], depth + 1)
    else if Starts(rest, "*/") then Unclosed(rest[2..], depth - 1)
    else Unclosed(rest[1..], depth)
  }

  /** Only whitespace, semicolons and closed comments. */
  predicate IsSqlEmpty(u: Alphabet, rest: string)
    decreases |rest|
  {
    if rest == "" then true
    else if u.space(rest[0]) || rest[0] == ';' then IsSqlEmpty(u, rest[1..])
    else if Starts(rest, "--") then IsSqlEmpty(u, rest[2..][AfterLine(rest[2..])..])
    else if Starts(rest, "/*") then !Unclosed(rest[2..], 1) && IsSqlEmpty(u, rest[2..][AfterBlock(rest[2..], 1)..])
    else false
  }

  /** The statement of a slice, unless it is empty. */
  function Keep(u: Alphabet, slice: string): Option<string> {
    var statement := Strip(u, slice);
    if statement == "" || IsSqlEmpty(u, statement) then None else Some(statement)
  }

  /** Each kept statement with the number of characters consumed through it. */
  function Kept(u: Alphabet, slices: seq<string>, offset: nat): seq<(string, nat)> {
    if slices == [] then []
    else
      var end := offset + |slices[0]|;
      (if Keep(u, slices[0]).Some? then [(Keep(u, slices[0]).value, end)] else []) + Kept(u, slices[1..], end)
  }

  /** One pass over the whole script. */
  function Statements(u: Alphabet, sql: string, standard: bool): seq<(string, nat)> {
    Kept(u, Slices(u, "", sql, standard, START), 0)
  }

  function Texts(statements: seq<(string, nat)>): (r: seq<string>)
    ensures |r| == |statements|
  {
    seq(|statements|, i requires 0 <= i < |statements| => statements[i].0)
  }

  // ---- Looking behind -------------------------------------------------------------------------

  /** The lexer has just started, here or behind a statement. */
  predicate Fresh(behind: string) {
    behind == "" || behind[|behind| - 1] == ';'
  }

  lemma {:induction false} SameEscape(u: Alphabet, a: string, b: string, x: string, standard: bool)
    requires Sane(u) && Fresh(a) && Fresh(b)
    ensures IsEscape(u, a + x, standard) == IsEscape(u, b + x, standard)
  {
    assert ';' in PUNCTUATION;
    if |x| == 1 {
      assert (a + x)[|a + x| - 1] == x[0] && (b + x)[|b + x| - 1] == x[0];
    }
  }

  lemma {:induction false} SameDelimiter(u: Alphabet, a: string, b: string, x: string, rest: string)
    requires Sane(u) && Fresh(a) && Fresh(b)
    ensures DollarDelimiter(u, a + x, rest) == DollarDelimiter(u, b + x, rest)
  {
    assert ';' in PUNCTUATION;
    if x != "" {
      assert (a + x)[|a + x| - 1] == x[|x| - 1] && (b + x)[|b + x| - 1] == x[|x| - 1];
    } else {
      assert a + x == a && b + x == b;
    }
  }

  lemma {:induction false} SameStep(u: Alphabet, a: string, b: string, x: string, rest: string, standard: bool,
                                    s: State)
    requires Sane(u) && Fresh(a) && Fresh(b) && rest != ""
    ensures Step(u, a + x, rest, standard, s) == Step(u, b + x, rest, standard, s)
  {
    SameEscape(u, a, b, x, standard);
    SameDelimiter(u, a, b, x, rest);
    hide IsEscape, DollarDelimiter, Keyword, WordAt;
  }

  /** One step, then the rest of the way. */
  function Onward(u: Alphabet, behind: string, rest: string, standard: bool, m: Move): Option<(nat, State)>
    requires 0 < m.length <= |rest|
  {
    if m.cut then Some((1, m.state))
    else
      match FirstCut(u, behind + rest[..m.length], rest[m.length..], standard, m.state)
      case None => None
      case Some((n, after)) => Some((m.length + n, after))
  }

  lemma {:induction false} CutUnfold(u: Alphabet, behind: string, rest: string, standard: bool, s: State)
    requires rest != ""
    ensures FirstCut(u, behind, rest, standard, s) ==
      Onward(u, behind, rest, standard, Step(u, behind, rest, standard, s))
  {
  }

  /** What came before a statement does not change where it is cut. */
  lemma {:induction false} SameCut(u: Alphabet, a: string, b: string, x: string, rest: string, standard: bool, s: State)
    requires Sane(u) && Fresh(a) && Fresh(b)
    ensures FirstCut(u, a + x, rest, standard, s) == FirstCut(u, b + x, rest, standard, s)
    decreases |rest|, 1
  {
    if rest != "" {
      SameStep(u, a, b, x, rest, standard, s);
      CutUnfold(u, a + x, rest, standard, s);
      CutUnfold(u, b + x, rest, standard, s);
      SameOnward(u, a, b, x, rest, standard, Step(u, a + x, rest, standard, s));
      hide FirstCut, Step, Onward;
    }
  }

  lemma {:induction false} SameOnward(u: Alphabet, a: string, b: string, x: string, rest: string, standard: bool,
                                      m: Move)
    requires Sane(u) && Fresh(a) && Fresh(b) && 0 < m.length <= |rest|
    ensures Onward(u, a + x, rest, standard, m) == Onward(u, b + x, rest, standard, m)
    decreases |rest|, 0
  {
    hide FirstCut, Sane, Fresh;
    var y := rest[..m.length];
    SameCut(u, a, b, x + y, rest[m.length..], standard, m.state);
    assert a + (x + y) == (a + x) + y && b + (x + y) == (b + x) + y;
  }

  // ---- The ignored keyword never survives a cut --------------------------------------------------

  /** The keyword the lexer will meet next, from inside whitespace or a comment. */
  function Upcoming(u: Alphabet, mode: Mode, rest: string): Option<string> {
    match mode
    case Normal => NextKeyword(u, rest)
    case LineComment => NextKeyword(u, rest[AfterLine(rest)..])
    case BlockComment(depth) => NextKeyword(u, rest[AfterBlock(rest, depth)..])
    case _ => None
  }

  predicate Consistent(u: Alphabet, s: State, rest: string) {
    && (s.ignored.Some? ==> Upcoming(u, s.mode, rest) == s.ignored)
    && (s.mode.BlockComment? ==> s.mode.depth > 0)
  }

  lemma {:induction false} NormalConsistent(u: Alphabet, behind: string, rest: string, standard: bool, s: State)
    requires Sane(u) && rest != "" && s.mode.Normal? && Consistent(u, s, rest)
    ensures var m := Step(u, behind, rest, standard, s); Consistent(u, m.state, rest[m.length..])
  {
    hide AfterLine, AfterBlock;
    assert '\'' in PUNCTUATION && '\"' in PUNCTUATION && '$' in PUNCTUATION && '-' in PUNCTUATION && '/' in PUNCTUATION;
    if WordAt(u, rest).Some? {
      WordMove(u, behind, rest, standard, s);
    }
  }

  /** A word is the next keyword, so an ignored one is met here. */
  lemma {:induction false} WordMove(u: Alphabet, behind: string, rest: string, standard: bool, s: State)
    requires Sane(u) && rest != "" && s.mode.Normal? && WordAt(u, rest).Some? && Consistent(u, s, rest)
    ensures var m := Step(u, behind, rest, standard, s);
      m == Move(|WordAt(u, rest).value|, Keyword(u, u.upper(WordAt(u, rest).value), rest[|WordAt(u, rest).value|..], s), false)
    ensures NextKeyword(u, rest) == Some(u.upper(WordAt(u, rest).value))
  {
    hide AfterLine, AfterBlock;
    assert '\'' in PUNCTUATION && '\"' in PUNCTUATION && '$' in PUNCTUATION && '-' in PUNCTUATION && '/' in PUNCTUATION;
    assert rest[0] !in PUNCTUATION && !u.space(rest[0]);
  }

  /** Every carriage return belongs to a line ending of two characters. */
  predicate Paired(text: string) {
    forall i :: 0 <= i < |text| && text[i] == '\r' ==> i + 1 < |text| && text[i + 1] == '\n'
  }

  /** Leaving a comment at the first of the two characters is no different. */
  lemma {:induction false} BeforeNewline(u: Alphabet, rest: string)
    requires rest != "" && rest[0] == '\r' && Paired(rest) && u.space('\n')
    ensures NextKeyword(u, rest[AfterLine(rest)..]) == NextKeyword(u, rest[1..])
  {
    assert rest[1..][0] == '\n';
    assert rest[1..][1..] == rest[AfterLine(rest)..];
  }

  lemma {:induction false} LineConsistent(u: Alphabet, behind: string, rest: string, standard: bool, s: State)
    requires rest != "" && s.mode.LineComment? && Consistent(u, s, rest) && u.space('\n') && Paired(rest)
    ensures var m := Step(u, behind, rest, standard, s); Consistent(u, m.state, rest[m.length..])
  {
    hide NextKeyword;
    if rest[0] == '\n' {
      assert rest[AfterLine(rest)..] == rest[1..];
    } else if rest[0] == '\r' {
      BeforeNewline(u, rest);
    } else {
      assert rest[1..][AfterLine(rest[1..])..] == rest[AfterLine(rest)..];
    }
  }

  lemma {:induction false} BlockConsistent(u: Alphabet, behind: string, rest: string, standard: bool, s: State)
    requires rest != "" && s.mode.BlockComment? && Consistent(u, s, rest)
    ensures var m := Step(u, behind, rest, standard, s); Consistent(u, m.state, rest[m.length..])
  {
    hide NextKeyword;
    var m := Step(u, behind, rest, standard, s);
    if m.state.mode.BlockComment? {
      assert rest[m.length..][AfterBlock(rest[m.length..], m.state.mode.depth)..] ==
        rest[AfterBlock(rest, s.mode.depth)..];
    } else {
      assert AfterBlock(rest[2..], 0) == 0;
      assert rest[AfterBlock(rest, s.mode.depth)..] == rest[2..];
    }
  }

  lemma {:induction false} StepConsistent(u: Alphabet, behind: string, rest: string, standard: bool, s: State)
    requires Sane(u) && rest != "" && Consistent(u, s, rest) && u.space('\n') && Paired(rest)
    ensures var m := Step(u, behind, rest, standard, s);
      Consistent(u, m.state, rest[m.length..]) && (m.cut ==> m.state.ignored.None?)
  {
    assert ';' in PUNCTUATION;
    match s.mode
    case Normal => NormalConsistent(u, behind, rest, standard, s);
    case LineComment => LineConsistent(u, behind, rest, standard, s);
    case BlockComment(_) => BlockConsistent(u, behind, rest, standard, s);
    case _ =>
  }

  /** Where no carriage return stands alone, every cut leaves the lexer as if it had just started. */
  lemma {:induction false} CutRestarts(u: Alphabet, behind: string, rest: string, standard: bool, s: State)
    requires Sane(u) && Consistent(u, s, rest) && u.space('\n') && Paired(rest)
    ensures FirstCut(u, behind, rest, standard, s).Some? ==> FirstCut(u, behind, rest, standard, s).value.1 == START
    decreases |rest|
  {
    if rest != "" {
      StepConsistent(u, behind, rest, standard, s);
      hide Step, Consistent;
      var m := Step(u, behind, rest, standard, s);
      if !m.cut {
        PairedTail(rest, m.length);
        CutRestarts(u, behind + rest[..m.length], rest[m.length..], standard, m.state);
      }
    }
  }

  // ---- What a cut carries over ------------------------------------------------------------------

  /** What a cut can leave behind: an ignored keyword is one that may follow END. */
  predicate Sensible(s: State) {
    s.ignored.Some? ==> s.ignored.value in BLOCK_KEYWORDS
  }

  /** CASE is the only one that opens a block, so ignoring another makes no difference. */
  predicate Alike(s: State, t: State) {
    && Sensible(s) && Sensible(t) && s.mode == t.mode && s.blocks == t.blocks
    && (s.ignored == Some("CASE") <==> t.ignored == Some("CASE"))
  }

  lemma {:induction false} KeywordAlike(u: Alphabet, keyword: string, after: string, s: State, t: State)
    requires Alike(s, t)
    ensures Alike(Keyword(u, keyword, after, s), Keyword(u, keyword, after, t))
  {
    hide NextKeyword;
  }

  lemma {:induction false} StepAlike(u: Alphabet, behind: string, rest: string, standard: bool, s: State, t: State)
    requires rest != "" && Alike(s, t)
    ensures var m, n := Step(u, behind, rest, standard, s), Step(u, behind, rest, standard, t);
      m.length == n.length && m.cut == n.cut && Alike(m.state, n.state)
  {
    var word := WordAt(u, rest);
    if word.Some? {
      KeywordAlike(u, u.upper(word.value), rest[|word.value|..], s, t);
    }
    hide WordAt, DollarDelimiter, IsEscape, Keyword;
  }

  predicate CutsAlike(a: Option<(nat, State)>, b: Option<(nat, State)>) {
    if a.None? then b.None? else b.Some? && a.value.0 == b.value.0 && Alike(a.value.1, b.value.1)
  }

  lemma {:induction false} FirstCutAlike(u: Alphabet, behind: string, rest: string, standard: bool, s: State, t: State)
    requires Alike(s, t)
    ensures CutsAlike(FirstCut(u, behind, rest, standard, s), FirstCut(u, behind, rest, standard, t))
    decreases |rest|
  {
    if rest != "" {
      StepAlike(u, behind, rest, standard, s, t);
      hide Step, Alike;
      var m, n := Step(u, behind, rest, standard, s), Step(u, behind, rest, standard, t);
      if !m.cut {
        FirstCutAlike(u, behind + rest[..m.length], rest[m.length..], standard, m.state, n.state);
      }
    }
  }

  /** Different beginnings and alike states make no difference to the cuts. */
  lemma {:induction false} BothAlike(u: Alphabet, a: string, b: string, rest: string, standard: bool, s: State, t: State)
    requires Sane(u) && Fresh(a) && Fresh(b) && Alike(s, t)
    ensures CutsAlike(FirstCut(u, a, rest, standard, s), FirstCut(u, b, rest, standard, t))
  {
    hide FirstCut, Sane, Fresh, Alike;
    SameCut(u, a, b, "", rest, standard, s);
    assert a + "" == a && b + "" == b;
    FirstCutAlike(u, b, rest, standard, s, t);
  }

  lemma {:induction false} SlicesAlike(u: Alphabet, a: string, b: string, rest: string, standard: bool, s: State, t: State)
    requires Sane(u) && Fresh(a) && Fresh(b) && Alike(s, t)
    ensures Slices(u, a, rest, standard, s) == Slices(u, b, rest, standard, t)
    decreases |rest|
  {
    BothAlike(u, a, b, rest, standard, s, t);
    hide FirstCut, Sane, Alike;
    var first, second := FirstCut(u, a, rest, standard, s), FirstCut(u, b, rest, standard, t);
    if first.Some? {
      var n := first.value.0;
      assert (a + rest[..n])[|a + rest[..n]| - 1] == rest[n - 1] && (b + rest[..n])[|b + rest[..n]| - 1] == rest[n - 1];
      SlicesAlike(u, a + rest[..n], b + rest[..n], rest[n..], standard, first.value.1, second.value.1);
    }
  }

  /** In one pass over the text, no cut leaves a CASE to be ignored. */
  predicate NothingCarried(u: Alphabet, behind: string, rest: string, standard: bool, s: State)
    decreases |rest|
  {
    match FirstCut(u, behind, rest, standard, s)
    case None => true
    case Some((n, after)) =>
      after.ignored != Some("CASE") && NothingCarried(u, behind + rest[..n], rest[n..], standard, after)
  }

  lemma {:induction false} CarriedAlike(u: Alphabet, a: string, b: string, rest: string, standard: bool, s: State, t: State)
    requires Sane(u) && Fresh(a) && Fresh(b) && Alike(s, t)
    ensures NothingCarried(u, a, rest, standard, s) == NothingCarried(u, b, rest, standard, t)
    decreases |rest|
  {
    BothAlike(u, a, b, rest, standard, s, t);
    hide FirstCut, Sane;
    var first, second := FirstCut(u, a, rest, standard, s), FirstCut(u, b, rest, standard, t);
    if first.Some? {
      var n := first.value.0;
      assert (a + rest[..n])[|a + rest[..n]| - 1] == rest[n - 1] && (b + rest[..n])[|b + rest[..n]| - 1] == rest[n - 1];
      CarriedAlike(u, a + rest[..n], b + rest[..n], rest[n..], standard, first.value.1, second.value.1);
    }
  }

  lemma {:induction false} PairedTail(text: string, n: nat)
    requires Paired(text) && n <= |text|
    ensures Paired(text[n..])
  {
    forall i | 0 <= i < |text[n..]| && text[n..][i] == '\r'
      ensures i + 1 < |text[n..]| && text[n..][i + 1] == '\n'
    {
      assert text[n + i] == '\r';
    }
  }

  /** Where no carriage return stands alone, nothing is carried over. */
  lemma {:induction false} PairedCarriesNothing(u: Alphabet, behind: string, rest: string, standard: bool)
    requires Sane(u) && u.space('\n') && Paired(rest)
    ensures NothingCarried(u, behind, rest, standard, START)
    decreases |rest|
  {
    CutRestarts(u, behind, rest, standard, START);
    hide FirstCut, Sane;
    match FirstCut(u, behind, rest, standard, START)
    case None =>
    case Some((n, after)) =>
      PairedTail(rest, n);
      PairedCarriesNothing(u, behind + rest[..n], rest[n..], standard);
  }

  // ---- Restarting ---------------------------------------------------------------------------------

  lemma {:induction false} KeptOffset(u: Alphabet, slices: seq<string>, offset: nat)
    ensures |Kept(u, slices, offset)| == |Kept(u, slices, 0)|
    ensures forall i :: 0 <= i < |Kept(u, slices, 0)| ==>
      Kept(u, slices, offset)[i] == (Kept(u, slices, 0)[i].0, Kept(u, slices, 0)[i].1 + offset)
    decreases |slices|
  {
    hide Keep;
    if slices != [] {
      KeptOffset(u, slices[1..], offset + |slices[0]|);
      KeptOffset(u, slices[1..], |slices[0]|);
    }
  }

  lemma {:induction false} KeptBounds(u: Alphabet, slices: seq<string>, offset: nat)
    ensures forall st :: st in Kept(u, slices, offset) ==> offset < st.1 <= offset + |Concat(slices)|
    decreases |slices|
  {
    if slices != [] {
      KeptBounds(u, slices[1..], offset + |slices[0]|);
      if slices[0] == "" {
        assert Strip(u, "") == "";
      }
    }
  }

  lemma {:induction false} StatementsBounds(u: Alphabet, sql: string, standard: bool)
    ensures forall st :: st in Statements(u, sql, standard) ==> 0 < st.1 <= |sql|
  {
    KeptBounds(u, Slices(u, "", sql, standard, START), 0);
    SlicesPartition(u, "", sql, standard, START);
  }

  /** The migrator's loop: take the first statement, drop what it consumed, start again. */
  function Restarted(u: Alphabet, sql: string, standard: bool): seq<string>
    decreases |sql|
  {
    var statements := Statements(u, sql, standard);
    if statements == [] then []
    else
      StatementsBounds(u, sql, standard);
      assert statements[0] in statements;
      [statements[0].0] + Restarted(u, sql[statements[0].1..], standard)
  }

  /** The first slice, and then the statements of the text behind it. */
  lemma {:induction false} StatementsUnfold(u: Alphabet, sql: string, standard: bool, n: nat, after: State)
    requires Sane(u) && 0 < n <= |sql| && sql[n - 1] == ';' && Alike(after, START)
    requires FirstCut(u, "", sql, standard, START) == Some((n, after))
    ensures var rest := Statements(u, sql[n..], standard);
      var all := Statements(u, sql, standard);
      var first := if Keep(u, sql[..n]).Some? then [(Keep(u, sql[..n]).value, n)] else [];
      && |all| == |first| + |rest| && all[..|first|] == first
      && forall i :: 0 <= i < |rest| ==> all[|first| + i] == (rest[i].0, rest[i].1 + n)
  {
    hide FirstCut, Keep, Kept, Sane, Alike;
    var tail := Slices(u, "", sql[n..], standard, START);
    assert Slices(u, "", sql, standard, START) == [sql[..n]] + tail by {
      assert "" + sql[..n] == sql[..n];
      SlicesAlike(u, sql[..n], "", sql[n..], standard, after, START);
    }
    KeptFirst(u, sql[..n], tail, 0);
    KeptOffset(u, tail, n);
  }

  lemma {:induction false} KeptFirst(u: Alphabet, slice: string, slices: seq<string>, offset: nat)
    ensures Kept(u, [slice] + slices, offset) ==
      (if Keep(u, slice).Some? then [(Keep(u, slice).value, offset + |slice|)] else []) + Kept(u, slices, offset + |slice|)
  {
    hide Keep;
    assert ([slice] + slices)[1..] == slices;
  }

  lemma {:induction false} NoCutStatements(u: Alphabet, sql: string, standard: bool)
    requires FirstCut(u, "", sql, standard, START).None?
    ensures Statements(u, sql, standard) == if Keep(u, sql).Some? then [(Keep(u, sql).value, |sql|)] else []
  {
    hide Keep;
    KeptFirst(u, sql, [], 0);
    assert [sql] + [] == [sql];
  }

  lemma EmptyStatements(u: Alphabet, standard: bool)
    ensures Statements(u, "", standard) == []
  {
    assert Strip(u, "") == "";
    NoCutStatements(u, "", standard);
  }

  /**
   Restarting behind each statement finds exactly the statements of one pass, when no cut
   of that pass leaves a CASE to be ignored.
   */
  lemma {:induction false} RestartIsOnePass(u: Alphabet, sql: string, standard: bool)
    requires Sane(u) && NothingCarried(u, "", sql, standard, START)
    ensures Restarted(u, sql, standard) == Texts(Statements(u, sql, standard))
    decreases |sql|
  {
    hide Statements, FirstCut, Keep, Sane;
    var all := Statements(u, sql, standard);
    match FirstCut(u, "", sql, standard, START)
    case None =>
      NoCutStatements(u, sql, standard);
      if all != [] {
        assert sql[|sql|..] == "";
        EmptyStatements(u, standard);
      }
    case Some((n, after)) =>
      BothAlike(u, "", "", sql, standard, START, START);
      assert Alike(after, START);
      assert "" + sql[..n] == sql[..n];
      CarriedAlike(u, sql[..n], "", sql[n..], standard, after, START);
      RestartIsOnePass(u, sql[n..], standard);
      RestartStep(u, sql, standard, n, after);
  }

  /** In particular when every carriage return in the text belongs to a line ending. */
  lemma {:induction false} PairedRestartsAreOnePass(u: Alphabet, sql: string, standard: bool)
    requires Sane(u) && u.space('\n') && Paired(sql)
    ensures Restarted(u, sql, standard) == Texts(Statements(u, sql, standard))
  {
    PairedCarriesNothing(u, "", sql, standard);
    RestartIsOnePass(u, sql, standard);
  }

  lemma {:induction false} RestartStep(u: Alphabet, sql: string, standard: bool, n: nat, after: State)
    requires Sane(u) && 0 < n <= |sql| && sql[n - 1] == ';' && Alike(after, START)
    requires FirstCut(u, "", sql, standard, START) == Some((n, after))
    requires Restarted(u, sql[n..], standard) == Texts(Statements(u, sql[n..], standard))
    ensures Restarted(u, sql, standard) == Texts(Statements(u, sql, standard))
  {
    hide Statements, FirstCut, Keep, Sane, Alike;
    StatementsUnfold(u, sql, standard, n, after);
    var all, rest := Statements(u, sql, standard), Statements(u, sql[n..], standard);
    if Keep(u, sql[..n]).Some? {
      assert all[0] == (Keep(u, sql[..n]).value, n);
      assert Texts(all) == [all[0].0] + Texts(rest);
    } else {
      assert Texts(all) == Texts(rest);
      if rest != [] {
        assert all[0] == (rest[0].0, rest[0].1 + n);
        StatementsBounds(u, sql[n..], standard);
        assert rest[0] in rest;
        assert sql[n..][rest[0].1..] == sql[all[0].1..];
      }
    }
  }
}
