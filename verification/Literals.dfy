/**
 What the compiler quotes, the splitter reads as one token: text constants in either
 string mode, and identifiers, whatever characters they hold.
 */
module Literals {
  import opened Options
  import opened Lexer
  import opened Quoting
  import Constants
  import Splitter

  /** The lexer reads exactly `n` characters without ending a statement. */
  predicate Runs(u: Alphabet, behind: string, rest: string, standard: bool, s: State, n: nat, after: State)
    requires n <= |rest|
    decreases n
  {
    if n == 0 then s == after
    else
      var m := Step(u, behind, rest, standard, s);
      !m.cut && m.length <= n
      && Runs(u, behind + rest[..m.length], rest[m.length..], standard, m.state, n - m.length, after)
  }

  /** `r` seen from `n` characters earlier. */
  function Later(n: nat, r: Option<(nat, State)>): Option<(nat, State)> {
    if r.None? then None else Some((n + r.value.0, r.value.1))
  }

  /** Nothing is cut on the way, so the next cut is found from there. */
  lemma {:induction false} RunsOver(u: Alphabet, behind: string, rest: string, standard: bool, s: State, n: nat,
                                    after: State)
    requires n <= |rest| && Runs(u, behind, rest, standard, s, n, after)
    ensures Splitter.FirstCut(u, behind, rest, standard, s) ==
            Later(n, Splitter.FirstCut(u, behind + rest[..n], rest[n..], standard, after))
    decreases n, 1
  {
    if n == 0 {
      assert behind + rest[..0] == behind && rest[0..] == rest;
    } else {
      Splitter.CutUnfold(u, behind, rest, standard, s);
      RunsOnward(u, behind, rest, standard, Step(u, behind, rest, standard, s), n, after);
    }
  }

  lemma {:induction false} RunsOnward(u: Alphabet, behind: string, rest: string, standard: bool, m: Move, n: nat,
                                      after: State)
    requires n <= |rest| && !m.cut && 0 < m.length <= n
    requires Runs(u, behind + rest[..m.length], rest[m.length..], standard, m.state, n - m.length, after)
    ensures Splitter.Onward(u, behind, rest, standard, m) ==
            Later(n, Splitter.FirstCut(u, behind + rest[..n], rest[n..], standard, after))
    decreases n, 0
  {
    hide Step, Runs, Splitter.FirstCut;
    RunsOver(u, behind + rest[..m.length], rest[m.length..], standard, m.state, n - m.length, after);
    assert behind + rest[..m.length] + rest[m.length..][..n - m.length] == behind + rest[..n];
    assert rest[m.length..][n - m.length..] == rest[n..];
  }

  /** Inside an escape string, up to and including the closing quote. */
  lemma {:induction false} InsideConstant(u: Alphabet, behind: string, text: string, after: string, standard: bool,
                                          s: State)
    requires s.mode == SingleQuote(true) && (after == "" || after[0] != '\'')
    ensures Runs(u, behind, Constants.Escaped(text) + "'" + after, standard, s, |Constants.Escaped(text)| + 1, s.(mode := Normal))
    decreases |text|
  {
    var rest := Constants.Escaped(text) + "'" + after;
    if text == "" {
      assert rest == "'" + after;
    } else {
      var inner := Constants.Escaped(text[1..]) + "'" + after;
      var piece := if text[0] == '\\' then "\\\\" else if text[0] == '\'' then "''" else [text[0]];
      assert rest == piece + inner;
      assert rest[..|piece|] == piece && rest[|piece|..] == inner;
      InsideConstant(u, behind + piece, text[1..], after, standard, s);
      assert Step(u, behind, rest, standard, s) == Move(|piece|, s, false);
    }
  }

  /**
   A text constant the compiler writes is one token in both string modes, unless a word
   runs into it: the lexer is afterwards where it was before.
   */
  lemma {:induction false} ConstantIsOneToken(u: Alphabet, behind: string, text: string, after: string,
                                              standard: bool, s: State)
    requires Sane(u) && u.upper("E") == "E" && s.mode.Normal? && s.ignored != Some("E")
    requires behind == "" || !WordPart(u, behind[|behind| - 1])
    requires after == "" || after[0] != '\''
    ensures Runs(u, behind, Constants.EscapeLiteral(text) + after, standard, s, |Constants.EscapeLiteral(text)|, s)
  {
    var inside := Constants.Escaped(text) + "'" + after;
    var rest := Constants.EscapeLiteral(text) + after;
    assert rest == "E" + ("'" + inside);
    assert '\'' in PUNCTUATION;
    assert rest[..1] == "E" && rest[1..] == "'" + inside;
    assert WordAt(u, rest) == Some("E") by {
      assert !WordPart(u, rest[1..][0]);
    }
    assert Step(u, behind, rest, standard, s) == Move(1, s, false);
    var quoted := s.(mode := SingleQuote(true));
    OpeningQuote(u, behind, "'" + inside, standard, s);
    assert ("'" + inside)[..1] == "'" && ("'" + inside)[1..] == inside;
    InsideConstant(u, behind + "E" + "'", text, after, standard, quoted);
    assert quoted.(mode := Normal) == s;
    hide Step;
    assert Runs(u, behind + "E", "'" + inside, standard, s, |Constants.Escaped(text)| + 2, s);
  }

  lemma OpeningQuote(u: Alphabet, behind: string, rest: string, standard: bool, s: State)
    requires rest != "" && rest[0] == '\'' && s.mode.Normal?
    requires behind == "" || !WordPart(u, behind[|behind| - 1])
    ensures Step(u, behind + "E", rest, standard, s) == Move(1, s.(mode := SingleQuote(true)), false)
  {
    assert (behind + "E")[|behind|] == 'E';
    assert behind != "" ==> (behind + "E")[|behind| - 1] == behind[|behind| - 1];
  }

  lemma {:induction false} InsideIdentifier(u: Alphabet, behind: string, name: string, after: string, standard: bool,
                                            s: State)
    requires s.mode == DoubleQuote && (after == "" || after[0] != '\"')
    ensures Runs(u, behind, Doubled(name, '\"') + "\"" + after, standard, s, |Doubled(name, '\"')| + 1, s.(mode := Normal))
    decreases |name|
  {
    var rest := Doubled(name, '\"') + "\"" + after;
    if name == "" {
      assert rest == "\"" + after;
    } else {
      var inner := Doubled(name[1..], '\"') + "\"" + after;
      var piece := if name[0] == '\"' then "\"\"" else [name[0]];
      assert rest == piece + inner;
      assert rest[..|piece|] == piece && rest[|piece|..] == inner;
      InsideIdentifier(u, behind + piece, name[1..], after, standard, s);
      assert Step(u, behind, rest, standard, s) == Move(|piece|, s, false);
    }
  }

  /** A quoted identifier is one token, whatever it holds. */
  lemma {:induction false} IdentifierIsOneToken(u: Alphabet, behind: string, name: string, after: string,
                                                standard: bool, s: State)
    requires s.mode.Normal? && (after == "" || after[0] != '\"')
    ensures Runs(u, behind, QuoteIdentifier(name) + after, standard, s, |QuoteIdentifier(name)|, s)
  {
    var inside := Doubled(name, '\"') + "\"" + after;
    var rest := QuoteIdentifier(name) + after;
    assert rest == "\"" + inside;
    assert rest[..1] == "\"" && rest[1..] == inside && rest[0] == '\"';
    assert !Starts(rest, "--") && !Starts(rest, "/*") by {
      assert rest[..2][0] == '\"';
    }
    assert Step(u, behind, rest, standard, s) == Move(1, s.(mode := DoubleQuote), false);
    InsideIdentifier(u, behind + "\"", name, after, standard, s.(mode := DoubleQuote));
    assert s.(mode := DoubleQuote).(mode := Normal) == s;
  }
}
