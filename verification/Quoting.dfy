/** Quoted identifiers, as the renderer writes them and the splitter reads them back. */
module Quoting {
  import opened Options

  /** `s` with every `quote` written twice. */
  function Doubled(s: string, quote: char): (r: string)
    ensures quote !in s ==> r == s
    ensures |s| <= |r|
  {
    if s == [] then []
    else Once(s[0], quote) + Doubled(s[1..], quote)
  }

  function QuoteIdentifier(name: string): string {
    "\"" + Doubled(name, '"') + "\""
  }

  /**
   Reads a quoted identifier whose opening quote is at `start`: its text and the
   index after the closing quote, or nothing when the quote never closes.
   */
  function ReadQuotedIdentifier(sql: string, start: nat): Option<(string, nat)>
    requires start < |sql|
  {
    ReadQuotedFrom(sql, start + 1, "")
  }

  function ReadQuotedFrom(sql: string, index: nat, characters: string): (r: Option<(string, nat)>)
    requires index <= |sql|
    ensures r.Some? ==> index < r.value.1 <= |sql| && sql[r.value.1 - 1] == '"'
    decreases |sql| - index
  {
    if index == |sql| then None
    else if sql[index] == '"' then
      if index + 1 < |sql| && sql[index + 1] == '"' then ReadQuotedFrom(sql, index + 2, characters + "\"")
      else Some((characters, index + 1))
    else ReadQuotedFrom(sql, index + 1, characters + [sql[index]])
  }

  method ReadQuoted(sql: string, start: nat) returns (result: Option<(string, nat)>)
    requires start < |sql|
    ensures result == ReadQuotedIdentifier(sql, start)
  {
    var characters := "";
    var index := start + 1;
    while index < |sql|
      invariant start < index <= |sql|
      invariant ReadQuotedIdentifier(sql, start) == ReadQuotedFrom(sql, index, characters)
    {
      if sql[index] == '"' {
        if index + 1 < |sql| && sql[index + 1] == '"' {
          characters := characters + "\"";
          index := index + 2;
          continue;
        }
        return Some((characters, index + 1));
      }
      characters := characters + [sql[index]];
      index := index + 1;
    }
    return None;
  }

  /**
   Reading back what the renderer wrote returns the name and the exact end, in any
   surroundings whose next character does not prolong the quotation.
   */
  lemma QuotingRoundTrip(before: string, name: string, after: string)
    requires after == [] || after[0] != '"'
    ensures ReadQuotedIdentifier(before + QuoteIdentifier(name) + after, |before|) ==
            Some((name, |before| + |QuoteIdentifier(name)|))
  {
    hide ReadQuotedFrom, Doubled;
    var sql, open := before + QuoteIdentifier(name) + after, before + "\"";
    assert sql == open + (Doubled(name, '"') + ("\"" + after));
    ReadDoubled(open, "", name, after);
    assert "" + name == name;
  }

  function Once(c: char, quote: char): string {
    if c == quote then [quote, quote] else [c]
  }

  lemma ReadOnce(sql: string, before: string, characters: string, c: char, later: string)
    requires sql == before + (Once(c, '"') + later)
    ensures ReadQuotedFrom(sql, |before|, characters) ==
            ReadQuotedFrom(sql, |before + Once(c, '"')|, characters + [c])
  {
    assert sql[|before|] == c && (c == '"' ==> sql[|before| + 1] == '"');
  }

  lemma ReadClosingQuote(before: string, characters: string, after: string)
    requires after == [] || after[0] != '"'
    ensures ReadQuotedFrom(before + ("\"" + after), |before|, characters) == Some((characters, |before| + 1))
  {
    var sql := before + ("\"" + after);
    assert sql[|before|] == '"';
    assert after != [] ==> sql[|before| + 1] == after[0];
  }

  lemma {:induction false} ReadDoubled(before: string, characters: string, name: string, after: string)
    requires after == [] || after[0] != '"'
    ensures ReadQuotedFrom(before + (Doubled(name, '"') + ("\"" + after)), |before|, characters) ==
            Some((characters + name, |before| + |Doubled(name, '"')| + 1))
    decreases |name|
  {
    hide ReadQuotedFrom;
    var close := "\"" + after;
    if name == [] {
      assert characters + name == characters && Doubled(name, '"') + close == close;
      ReadClosingQuote(before, characters, after);
    } else {
      var first, later := Once(name[0], '"'), Doubled(name[1..], '"') + close;
      assert Doubled(name, '"') == first + Doubled(name[1..], '"');
      assert Doubled(name, '"') + close == first + later;
      assert before + (first + later) == (before + first) + later;
      ReadOnce(before + (first + later), before, characters, name[0], later);
      ReadDoubled(before + first, characters + [name[0]], name[1..], after);
      assert characters + [name[0]] + name[1..] == characters + name;
    }
  }

  /** Distinct names stay distinct under quoting. */
  lemma QuotingIsInjective(a: string, b: string)
    requires QuoteIdentifier(a) == QuoteIdentifier(b)
    ensures a == b
  {
    QuotingRoundTrip("", a, "");
    QuotingRoundTrip("", b, "");
    assert "" + QuoteIdentifier(a) + "" == QuoteIdentifier(a);
  }
}
