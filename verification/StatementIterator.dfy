/** The splitter's loops: each index loop computes what the lexer's definitions say of the text ahead. */
module StatementIterator {
  import opened Options
  import opened Lexer
  import opened Splitter

  method ReadWord(u: Alphabet, sql: string, index: nat) returns (word: Option<string>)
    requires index <= |sql|
    ensures word == WordAt(u, sql[index..])
  {
    if index >= |sql| || !WordStart(u, sql[index]) {
      return None;
    }
    var end := index + 1;
    while end < |sql| && WordPart(u, sql[end])
      invariant index < end <= |sql|
      invariant WordLength(u, sql[index + 1..]) == end - index - 1 + WordLength(u, sql[end..])
    {
      assert sql[end..][1..] == sql[end + 1..];
      end := end + 1;
    }
    assert sql[index..][1..] == sql[index + 1..];
    assert sql[index..][..end - index] == sql[index..end];
    return Some(sql[index..end]);
  }

  /** `str.find("\n", start)`, then one further; the end when there is none. */
  method SkipLine(sql: string, start: nat) returns (index: nat)
    requires start <= |sql|
    ensures index == start + AfterLine(sql[start..])
  {
    index := start;
    while index < |sql| && sql[index] != '\n'
      invariant start <= index <= |sql|
      invariant start + AfterLine(sql[start..]) == index + AfterLine(sql[index..])
    {
      assert sql[index..][1..] == sql[index + 1..];
      index := index + 1;
    }
    if index < |sql| {
      index := index + 1;
    }
  }

  /** From just behind the opening of a comment to just behind its close, or the end. */
  method SkipBlock(sql: string, start: nat) returns (index: nat, closed: bool)
    requires start <= |sql|
    ensures index == start + AfterBlock(sql[start..], 1) && closed == !Unclosed(sql[start..], 1)
  {
    hide AfterBlock, Unclosed;
    var depth: nat := 1;
    index := start;
    while index < |sql| && depth > 0
      invariant start <= index <= |sql|
      invariant start + AfterBlock(sql[start..], 1) == index + AfterBlock(sql[index..], depth)
      invariant Unclosed(sql[start..], 1) == Unclosed(sql[index..], depth)
    {
      BlockMoves(sql, index, depth);
      if Starts(sql[index..], "/*") {
        depth, index := depth + 1, index + 2;
      } else if Starts(sql[index..], "*/") {
        depth, index := depth - 1, index + 2;
      } else {
        index := index + 1;
      }
    }
    BlockEnds(sql[index..], depth);
    closed := depth == 0;
  }

  /** One move through a block comment. */
  lemma {:induction false} BlockMoves(sql: string, index: nat, depth: nat)
    requires index < |sql| && depth > 0
    ensures var (n, inner) := if Starts(sql[index..], "/*") then (2, depth + 1)
                              else if Starts(sql[index..], "*/") then (2, depth - 1) else (1, depth);
      && AfterBlock(sql[index..], depth) == n + AfterBlock(sql[index + n..], inner)
      && Unclosed(sql[index..], depth) == Unclosed(sql[index + n..], inner)
  {
    Suffixes(sql, index, 1, 0);
    if |sql| >= index + 2 {
      Suffixes(sql, index, 2, 0);
    }
  }

  lemma BlockEnds(rest: string, depth: nat)
    requires rest == "" || depth == 0
    ensures AfterBlock(rest, depth) == 0 && Unclosed(rest, depth) == (depth > 0)
  {
  }

  lemma Suffixes(sql: string, index: nat, n: nat, m: nat)
    requires index + n + m <= |sql|
    ensures sql[index..][n..] == sql[index + n..] && sql[index..][n..][m..] == sql[index + n + m..]
  {
  }

  /** One move of the search for a keyword. */
  lemma {:induction false} KeywordMoves(u: Alphabet, sql: string, index: nat)
    requires index < |sql|
    ensures u.space(sql[index]) ==> NextKeyword(u, sql[index..]) == NextKeyword(u, sql[index + 1..])
    ensures !u.space(sql[index]) && Starts(sql[index..], "--") ==>
      NextKeyword(u, sql[index..]) == NextKeyword(u, sql[index + 2 + AfterLine(sql[index + 2..])..])
    ensures !u.space(sql[index]) && Starts(sql[index..], "/*") ==>
      NextKeyword(u, sql[index..]) == NextKeyword(u, sql[index + 2 + AfterBlock(sql[index + 2..], 1)..])
    ensures !u.space(sql[index]) && !Starts(sql[index..], "--") && !Starts(sql[index..], "/*") ==>
      NextKeyword(u, sql[index..]) ==
        if WordAt(u, sql[index..]).Some? then Some(u.upper(WordAt(u, sql[index..]).value)) else None
  {
    hide AfterLine, AfterBlock, WordAt;
    assert sql[index..][0] == sql[index];
    Suffixes(sql, index, 1, 0);
    if |sql| >= index + 2 {
      Suffixes(sql, index, 2, AfterLine(sql[index + 2..]));
      Suffixes(sql, index, 2, AfterBlock(sql[index + 2..], 1));
    }
    if Starts(sql[index..], "--") {
      assert sql[index..][..2][0] == '-';
    }
    if Starts(sql[index..], "/*") {
      assert sql[index..][..2][0] == '/';
    }
  }

  method FindKeyword(u: Alphabet, sql: string, start: nat) returns (keyword: Option<string>)
    requires start <= |sql|
    ensures keyword == NextKeyword(u, sql[start..])
  {
    hide NextKeyword, AfterLine, AfterBlock, Unclosed, WordAt;
    var index := start;
    while index < |sql|
      invariant start <= index <= |sql|
      invariant NextKeyword(u, sql[start..]) == NextKeyword(u, sql[index..])
    {
      KeywordMoves(u, sql, index);
      if u.space(sql[index]) {
        index := index + 1;
      } else if Starts(sql[index..], "--") {
        index := SkipLine(sql, index + 2);
      } else if Starts(sql[index..], "/*") {
        var next, _ := SkipBlock(sql, index + 2);
        index := next;
      } else {
        var word := ReadWord(u, sql, index);
        return if word.Some? then Some(u.upper(word.value)) else None;
      }
    }
    NoKeyword(u);
    assert sql[index..] == "";
    return None;
  }

  lemma NoKeyword(u: Alphabet)
    ensures NextKeyword(u, "") == None && IsSqlEmpty(u, "")
  {
  }

  /** One move of the check for an empty statement. */
  lemma {:induction false} EmptyMoves(u: Alphabet, sql: string, index: nat)
    requires index < |sql|
    ensures u.space(sql[index]) || sql[index] == ';' ==> IsSqlEmpty(u, sql[index..]) == IsSqlEmpty(u, sql[index + 1..])
    ensures !u.space(sql[index]) && Starts(sql[index..], "--") ==>
      IsSqlEmpty(u, sql[index..]) == IsSqlEmpty(u, sql[index + 2 + AfterLine(sql[index + 2..])..])
    ensures !u.space(sql[index]) && Starts(sql[index..], "/*") ==>
      IsSqlEmpty(u, sql[index..]) ==
        (!Unclosed(sql[index + 2..], 1) && IsSqlEmpty(u, sql[index + 2 + AfterBlock(sql[index + 2..], 1)..]))
    ensures !u.space(sql[index]) && sql[index] != ';' && !Starts(sql[index..], "--") && !Starts(sql[index..], "/*") ==>
      !IsSqlEmpty(u, sql[index..])
  {
    hide AfterLine, AfterBlock, Unclosed, IsSqlEmpty, Starts;
    EmptyUnfold(u, sql[index..]);
    Suffixes(sql, index, 1, 0);
    if Starts(sql[index..], "--") || Starts(sql[index..], "/*") {
      StartsLength(sql[index..]);
      Suffixes(sql, index, 2, AfterLine(sql[index + 2..]));
      Suffixes(sql, index, 2, AfterBlock(sql[index + 2..], 1));
    }
  }

  lemma StartsLength(rest: string)
    requires Starts(rest, "--") || Starts(rest, "/*")
    ensures |rest| >= 2
  {
  }

  lemma EmptyUnfold(u: Alphabet, rest: string)
    requires rest != ""
    ensures u.space(rest[0]) || rest[0] == ';' ==> IsSqlEmpty(u, rest) == IsSqlEmpty(u, rest[1..])
    ensures !u.space(rest[0]) && Starts(rest, "--") ==> IsSqlEmpty(u, rest) == IsSqlEmpty(u, rest[2..][AfterLine(rest[2..])..])
    ensures !u.space(rest[0]) && Starts(rest, "/*") ==>
      IsSqlEmpty(u, rest) == (!Unclosed(rest[2..], 1) && IsSqlEmpty(u, rest[2..][AfterBlock(rest[2..], 1)..]))
    ensures !u.space(rest[0]) && rest[0] != ';' && !Starts(rest, "--") && !Starts(rest, "/*") ==> !IsSqlEmpty(u, rest)
  {
    hide AfterLine, AfterBlock, Unclosed;
    if Starts(rest, "--") {
      assert rest[..2][0] == '-';
    }
    if Starts(rest, "/*") {
      assert rest[..2][0] == '/';
    }
  }

  method CheckEmpty(u: Alphabet, sql: string) returns (empty: bool)
    ensures empty == IsSqlEmpty(u, sql)
  {
    hide IsSqlEmpty, AfterLine, AfterBlock, Unclosed;
    var index := 0;
    assert sql[0..] == sql;
    while index < |sql|
      invariant index <= |sql|
      invariant IsSqlEmpty(u, sql) == IsSqlEmpty(u, sql[index..])
    {
      EmptyMoves(u, sql, index);
      if u.space(sql[index]) || sql[index] == ';' {
        index := index + 1;
      } else if Starts(sql[index..], "--") {
        index := SkipLine(sql, index + 2);
      } else if Starts(sql[index..], "/*") {
        var next, closed := SkipBlock(sql, index + 2);
        if !closed {
          return false;
        }
        index := next;
      } else {
        return false;
      }
    }
    NoKeyword(u);
    assert sql[index..] == "";
    return true;
  }

  method ReadDelimiter(u: Alphabet, sql: string, index: nat) returns (delimiter: Option<string>)
    requires index < |sql|
    ensures delimiter == DollarDelimiter(u, sql[..index], sql[index..])
  {
    if sql[index] != '$' || (index > 0 && WordPart(u, sql[index - 1])) {
      return None;
    }
    Suffixes(sql, index, 1, 0);
    var end := index + 1;
    while end < |sql| && sql[end] != '$'
      invariant index < end <= |sql|
      invariant FindDollar(sql[index + 1..]) == end - index - 1 + FindDollar(sql[end..])
    {
      assert sql[end..][1..] == sql[end + 1..];
      end := end + 1;
    }
    assert sql[index..][1..end - index] == sql[index + 1..end];
    if end == |sql| || !IsTag(u, sql[index + 1..end]) {
      return None;
    }
    assert sql[index..][..end + 1 - index] == sql[index..end + 1];
    return Some(sql[index..end + 1]);
  }

  /** What a keyword does to the open blocks. */
  method ReadKeyword(u: Alphabet, keyword: string, sql: string, next: nat, s: State) returns (after: State)
    requires next <= |sql|
    ensures after == Keyword(u, keyword, sql[next..], s)
  {
    hide NextKeyword;
    if s.ignored == Some(keyword) {
      return s.(ignored := None);
    }
    if s.blocks != [] {
      if keyword == "BEGIN" || keyword == "CASE" {
        return s.(blocks := s.blocks + [keyword]);
      }
      if keyword == "END" {
        var following := FindKeyword(u, sql, next);
        var popped := s.(blocks := s.blocks[..|s.blocks| - 1]);
        return if following.Some? && following.value in BLOCK_KEYWORDS then popped.(ignored := following) else popped;
      }
      return s;
    }
    if keyword == "BEGIN" {
      var following := FindKeyword(u, sql, next);
      if following == Some("ATOMIC") {
        return s.(blocks := ["BEGIN"]);
      }
    }
    return s;
  }

  /** Outside quotes and comments. */
  method ReadNormal(u: Alphabet, sql: string, index: nat, standard: bool, s: State) returns (m: Move)
    requires index < |sql| && s.mode.Normal?
    ensures m == Step(u, sql[..index], sql[index..], standard, s)
  {
    hide Keyword, NextKeyword, WordAt, DollarDelimiter, IsEscape;
    if Starts(sql[index..], "--") {
      return Move(2, s.(mode := LineComment), false);
    }
    if Starts(sql[index..], "/*") {
      return Move(2, s.(mode := BlockComment(1)), false);
    }
    if sql[index] == '\'' {
      return Move(1, s.(mode := SingleQuote(IsEscape(u, sql[..index], standard))), false);
    }
    if sql[index] == '\"' {
      return Move(1, s.(mode := DoubleQuote), false);
    }
    var delimiter := ReadDelimiter(u, sql, index);
    if delimiter.Some? {
      return Move(|delimiter.value|, s.(mode := DollarQuote(delimiter.value)), false);
    }
    var word := ReadWord(u, sql, index);
    if word.Some? {
      WordFits(u, sql, index, word.value);
      Suffixes(sql, index, |word.value|, 0);
      var after := ReadKeyword(u, u.upper(word.value), sql, index + |word.value|, s);
      return Move(|word.value|, after, false);
    }
    return Move(1, s, sql[index] == ';' && s.blocks == []);
  }

  lemma WordFits(u: Alphabet, sql: string, index: nat, word: string)
    requires index < |sql| && WordAt(u, sql[index..]) == Some(word)
    ensures 0 < |word| <= |sql| - index
  {
  }

  /** One round of the loop, in whichever state it is. */
  method ReadStep(u: Alphabet, sql: string, index: nat, standard: bool, s: State) returns (m: Move)
    requires index < |sql|
    ensures m == Step(u, sql[..index], sql[index..], standard, s)
  {
    var rest := sql[index..];
    match s.mode {
      case Normal =>
        m := ReadNormal(u, sql, index, standard, s);
      case LineComment =>
        m := Move(1, if sql[index] == '\r' || sql[index] == '\n' then s.(mode := Normal) else s, false);
      case BlockComment(depth) =>
        if Starts(rest, "/*") {
          m := Move(2, s.(mode := BlockComment(depth + 1)), false);
        } else if Starts(rest, "*/") {
          m := Move(2, s.(mode := if depth <= 1 then Normal else BlockComment(depth - 1)), false);
        } else {
          m := Move(1, s, false);
        }
      case SingleQuote(escape) =>
        if sql[index] == '\\' && escape {
          m := Move(if index + 1 < |sql| then 2 else 1, s, false);
        } else if sql[index] == '\'' {
          m := if index + 1 < |sql| && sql[index + 1] ==
            '\'' then Move(2, s, false) else Move(1, s.(mode := Normal), false);
        } else {
          m := Move(1, s, false);
        }
      case DoubleQuote =>
        if sql[index] == '\"' {
          m := if index + 1 < |sql| && sql[index + 1] ==
            '\"' then Move(2, s, false) else Move(1, s.(mode := Normal), false);
        } else {
          m := Move(1, s, false);
        }
      case DollarQuote(delimiter) =>
        m := if delimiter != "" && Starts(rest, delimiter) then Move(|delimiter|, s.(mode := Normal), false) else Move(1, s, false);
    }
  }

  /** The slices still to come when `buffer` has been read of the current one. */
  function Remaining(u: Alphabet, buffer: string, behind: string, rest: string, standard: bool, s: State): seq<string> {
    match FirstCut(u, behind, rest, standard, s)
    case None => [buffer + rest]
    case Some((n, after)) => [buffer + rest[..n]] + Slices(u, behind + rest[..n], rest[n..], standard, after)
  }

  lemma {:induction false} RemainingStep(u: Alphabet, buffer: string, behind: string, rest: string, standard: bool,
                                         s: State)
    requires rest != ""
    ensures var m := Step(u, behind, rest, standard, s);
      Remaining(u, buffer, behind, rest, standard, s) ==
        if m.cut then [buffer + rest[..1]] + Slices(u, behind + rest[..1], rest[1..], standard, m.state)
        else Remaining(u, buffer + rest[..m.length], behind + rest[..m.length], rest[m.length..], standard, m.state)
  {
    CutUnfold(u, behind, rest, standard, s);
    var m := Step(u, behind, rest, standard, s);
    StepFits(u, behind, rest, standard, s);
    if !m.cut {
      RemainingOnward(u, buffer, behind, rest, standard, m);
    }
    hide FirstCut, Step, Slices;
  }

  lemma {:induction false} RemainingOnward(u: Alphabet, buffer: string, behind: string, rest: string, standard: bool,
                                           m: Move)
    requires 0 < m.length <= |rest| && !m.cut
    ensures Remaining(u, buffer + rest[..m.length], behind + rest[..m.length], rest[m.length..], standard, m.state) ==
      match Onward(u, behind, rest, standard, m)
      case None => [buffer + rest]
      case Some((n, after)) => [buffer + rest[..n]] + Slices(u, behind + rest[..n], rest[n..], standard, after)
  {
    hide FirstCut, Slices;
    var inner := FirstCut(u, behind + rest[..m.length], rest[m.length..], standard, m.state);
    CutFits(u, behind + rest[..m.length], rest[m.length..], standard, m.state);
    Joined(buffer, behind, rest, m.length, if inner.Some? then inner.value.0 else |rest| - m.length);
    if inner.None? {
      assert rest[m.length..][..|rest| - m.length] == rest[m.length..];
      assert rest[..m.length + (|rest| - m.length)] == rest;
    }
  }

  lemma Joined(buffer: string, behind: string, rest: string, m: nat, n: nat)
    requires m + n <= |rest|
    ensures buffer + rest[..m + n] == (buffer + rest[..m]) + rest[m..][..n]
    ensures behind + rest[..m + n] == (behind + rest[..m]) + rest[m..][..n]
    ensures rest[m + n..] == rest[m..][n..]
  {
    assert rest[..m + n] == rest[..m] + rest[m..][..n];
  }

  lemma CutFits(u: Alphabet, behind: string, rest: string, standard: bool, s: State)
    ensures FirstCut(u, behind, rest, standard, s).Some? ==>
      0 < FirstCut(u, behind, rest, standard, s).value.0 <= |rest|
  {
  }

  lemma RemainingSlices(u: Alphabet, behind: string, rest: string, standard: bool, s: State)
    ensures Remaining(u, "", behind, rest, standard, s) == Slices(u, behind, rest, standard, s)
  {
    hide FirstCut;
    assert "" + rest == rest;
    match FirstCut(u, behind, rest, standard, s)
    case None =>
    case Some((n, after)) => assert "" + rest[..n] == rest[..n];
  }

  /** The statement in the buffer, unless it is empty. */
  method Finish(u: Alphabet, buffer: string) returns (kept: Option<string>)
    ensures kept == Keep(u, buffer)
  {
    var statement := Strip(u, buffer);
    var empty := CheckEmpty(u, statement);
    return if statement != "" && !empty then Some(statement) else None;
  }

  lemma {:induction false} KeptStep(u: Alphabet, slice: string, slices: seq<string>, offset: nat,
                                    found: seq<(string, nat)>)
    ensures found + Kept(u, [slice] + slices, offset) ==
      (found + if Keep(u, slice).Some? then [(Keep(u, slice).value, offset + |slice|)] else []) + Kept(u, slices, offset + |slice|)
  {
    hide Keep, Kept;
    KeptFirst(u, slice, slices, offset);
  }

  /** The whole loop: one pass over the script, with the buffer holding exactly the current slice. */
  method SplitStatements(u: Alphabet, sql: string, standard: bool) returns (found: seq<(string, nat)>)
    ensures found == Statements(u, sql, standard)
  {
    hide Step, Kept, Slices, Keep, Remaining, FirstCut;
    found := [];
    var buffer := "";
    var s := START;
    var index := 0;
    ghost var start := 0;
    RemainingSlices(u, "", sql, standard, START);
    assert sql[0..] == sql && sql[..0] == "";
    while index < |sql|
      invariant start <= index <= |sql| && buffer == sql[start..index]
      invariant Statements(u, sql, standard) ==
                found + Kept(u, Remaining(u, buffer, sql[..index], sql[index..], standard, s), start)
    {
      var m := ReadStep(u, sql, index, standard, s);
      StepFits(u, sql[..index], sql[index..], standard, s);
      RemainingStep(u, buffer, sql[..index], sql[index..], standard, s);
      assert sql[index..][..m.length] == sql[index..index + m.length] && sql[index..][m.length..] ==
        sql[index + m.length..];
      assert sql[..index] + sql[index..index + m.length] == sql[..index + m.length];
      buffer := buffer + sql[index..index + m.length];
      index := index + m.length;
      if m.cut {
        var kept := Finish(u, buffer);
        KeptStep(u, buffer, Slices(u, sql[..index], sql[index..], standard, m.state), start, found);
        if kept.Some? {
          found := found + [(kept.value, index)];
        } else {
          assert found + [] == found;
        }
        RemainingSlices(u, sql[..index], sql[index..], standard, m.state);
        buffer, start := "", index;
      }
      s := m.state;
    }
    AtTheEnd(u, buffer, sql, standard, s);
    KeptStep(u, buffer, [], start, found);
    NothingKept(u, start + |buffer|);
    var kept := Finish(u, buffer);
    if kept.Some? {
      found := found + [(kept.value, |sql|)];
    }
  }

  /** The migrator's loop: the first statement is taken, what it consumed is dropped, and splitting starts again. */
  method SplitAgain(u: Alphabet, sql: string, standard: bool) returns (taken: seq<string>)
    ensures taken == Restarted(u, sql, standard)
  {
    hide Statements;
    taken := [];
    var remaining := sql;
    while remaining != ""
      invariant Restarted(u, sql, standard) == taken + Restarted(u, remaining, standard)
      decreases |remaining|
    {
      var found := SplitStatements(u, remaining, standard);
      if found == [] {
        assert Restarted(u, remaining, standard) == [];
        return;
      }
      StatementsBounds(u, remaining, standard);
      assert found[0] in found;
      var rest := remaining[found[0].1..];
      assert taken + ([found[0].0] + Restarted(u, rest, standard)) == (taken + [found[0].0]) + Restarted(u, rest, standard);
      taken, remaining := taken + [found[0].0], rest;
    }
    EmptyStatements(u, standard);
  }

  lemma StepFits(u: Alphabet, behind: string, rest: string, standard: bool, s: State)
    requires rest != ""
    ensures var m := Step(u, behind, rest, standard, s); 0 < m.length <= |rest| && (m.cut ==> m.length == 1)
  {
  }

  lemma AtTheEnd(u: Alphabet, buffer: string, sql: string, standard: bool, s: State)
    ensures Remaining(u, buffer, sql[..|sql|], sql[|sql|..], standard, s) == [buffer] + []
  {
    assert buffer + sql[|sql|..] == buffer;
  }

  lemma NothingKept(u: Alphabet, offset: nat)
    ensures Kept(u, [], offset) == []
  {
  }
}
