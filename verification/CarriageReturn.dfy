/**
 A carriage return ends a line comment for the splitter, but not for the look-ahead that
 decides which keyword to ignore.  With one, restarting behind a statement can cut the
 rest of the script differently from one pass.
 */
module CarriageReturn {
  import opened Options
  import opened Lexer
  import opened Splitter

  predicate Letter(c: char) {
    'A' <= c <= 'Z'
  }

  /** Upper-case letters are all this example needs. */
  const CAPITALS: Alphabet := Alphabet(Letter, Letter, c => c == ' ' || c == '\n' || c == '\r', word => word)

  lemma CapitalsAreSane()
    ensures Sane(CAPITALS)
  {
  }

  predicate AllLetters(word: string) {
    word != "" && forall i :: 0 <= i < |word| ==> Letter(word[i])
  }

  predicate Separated(rest: string) {
    rest == "" || !WordPart(CAPITALS, rest[0])
  }

  lemma NotComment(text: string)
    requires text != "" && text[0] != '-' && text[0] != '/'
    ensures !Starts(text, "--") && !Starts(text, "/*")
  {
    if |text| >= 2 {
      assert text[..2][0] == text[0];
    }
  }

  lemma {:induction false} LettersLength(word: string, rest: string)
    requires Separated(rest) && forall i :: 0 <= i < |word| ==> Letter(word[i])
    ensures WordLength(CAPITALS, word + rest) == |word|
    decreases |word|
  {
    if word == "" {
      assert word + rest == rest;
    } else {
      LettersLength(word[1..], rest);
      assert (word + rest)[1..] == word[1..] + rest;
    }
  }

  lemma {:induction false} WordIs(word: string, rest: string)
    requires AllLetters(word) && Separated(rest)
    ensures WordAt(CAPITALS, word + rest) == Some(word)
    ensures NextKeyword(CAPITALS, word + rest) == Some(word)
    ensures (word + rest)[|word|..] == rest && (word + rest)[..|word|] == word
    ensures !Starts(word + rest, "--") && !Starts(word + rest, "/*")
  {
    LettersLength(word[1..], rest);
    assert (word + rest)[1..] == word[1..] + rest;
    assert (word + rest)[0] == word[0];
    NotComment(word + rest);
  }

  /** A word is read as a keyword. */
  lemma {:induction false} OverWord(behind: string, word: string, rest: string, s: State)
    requires AllLetters(word) && Separated(rest) && s.mode.Normal?
    ensures FirstCut(CAPITALS, behind, word + rest, true, s) ==
            Later(|word|, FirstCut(CAPITALS, behind + word, rest, true, Keyword(CAPITALS, word, rest, s)))
  {
    WordIs(word, rest);
    assert Step(CAPITALS, behind, word + rest, true, s) == Move(|word|, Keyword(CAPITALS, word, rest, s), false) by {
      hide Keyword, WordAt, NextKeyword;
      assert (word + rest)[0] == word[0];
    }
    CutUnfold(CAPITALS, behind, word + rest, true, s);
    hide FirstCut, Step, Keyword;
  }

  /** A space is passed over. */
  lemma {:induction false} OverSpace(behind: string, c: char, rest: string, s: State)
    requires (c == ' ' || c == '\n') && s.mode.Normal?
    ensures FirstCut(CAPITALS, behind, [c] + rest, true, s) == Later(1, FirstCut(CAPITALS, behind + [c], rest, true, s))
    ensures NextKeyword(CAPITALS, [c] + rest) == NextKeyword(CAPITALS, rest)
  {
    var all := [c] + rest;
    assert all[0] == c && all[1..] == rest && all[..1] == [c];
    NotComment(all);
    assert Step(CAPITALS, behind, all, true, s) == Move(1, s, false);
    CutUnfold(CAPITALS, behind, all, true, s);
    hide FirstCut, Step;
  }

  lemma {:induction false} AtSemicolon(behind: string, rest: string, s: State)
    requires s.mode.Normal? && s.blocks == []
    ensures FirstCut(CAPITALS, behind, ";" + rest, true, s) == Some((1, s))
    ensures NextKeyword(CAPITALS, ";" + rest) == None
  {
    var all := ";" + rest;
    assert all[0] == ';';
    NotComment(all);
    assert Step(CAPITALS, behind, all, true, s) == Move(1, s, true);
    CutUnfold(CAPITALS, behind, all, true, s);
  }

  /** Inside a block a semicolon is passed over. */
  lemma {:induction false} OverSemicolon(behind: string, rest: string, s: State)
    requires s.mode.Normal? && s.blocks != []
    ensures FirstCut(CAPITALS, behind, ";" + rest, true, s) == Later(1, FirstCut(CAPITALS, behind + ";", rest, true, s))
  {
    var all := ";" + rest;
    assert all[0] == ';' && all[1..] == rest && all[..1] == ";";
    NotComment(all);
    assert Step(CAPITALS, behind, all, true, s) == Move(1, s, false);
    CutUnfold(CAPITALS, behind, all, true, s);
    hide FirstCut, Step;
  }

  function Later(n: nat, r: Option<(nat, State)>): Option<(nat, State)> {
    if r.None? then None else Some((n + r.value.0, r.value.1))
  }

  // `BEGIN ATOMIC\nCASE END;X`, from the last token to the first.

  function Closing(): string {
    ";" + "X"
  }

  function Ending(): string {
    "END" + Closing()
  }

  function Casing(): string {
    "CASE" + (" " + Ending())
  }

  function Atomic(): string {
    "ATOMIC" + ("\n" + Casing())
  }

  function Tail(): string {
    "BEGIN" + (" " + Atomic())
  }

  /** `BEGIN ATOMIC END--\r;`, and the tail behind it. */
  function Script(): string {
    "BEGIN" + (" " + ("ATOMIC" + (" " + ("END" + Comment()))))
  }

  function Comment(): string {
    "--" + ("\r" + (";" + Tail()))
  }

  const BLOCK := START.(blocks := ["BEGIN"])
  const NESTED := START.(blocks := ["BEGIN", "CASE"])
  const IGNORING := START.(ignored := Some("CASE"))

  lemma {:induction false} FreshClosing(behind: string)
    ensures FirstCut(CAPITALS, behind, Closing(), true, BLOCK).None?
  {
    OverSemicolon(behind, "X", BLOCK);
    assert "X" == "X" + "";
    OverWord(behind + ";", "X", "", BLOCK);
    assert FirstCut(CAPITALS, behind + ";" + "X", "", true, BLOCK).None?;
    assert Keyword(CAPITALS, "X", "", BLOCK) == BLOCK;
  }

  lemma {:induction false} EndIsLast()
    ensures NextKeyword(CAPITALS, Closing()) == None
  {
    AtSemicolon("", "X", START);
  }

  lemma {:induction false} FreshEnding(behind: string)
    ensures FirstCut(CAPITALS, behind, Ending(), true, NESTED).None?
  {
    hide FirstCut, NextKeyword;
    EndIsLast();
    OverWord(behind, "END", Closing(), NESTED);
    assert NESTED.blocks[..1] == ["BEGIN"];
    FreshClosing(behind + "END");
  }

  lemma {:induction false} FreshCasing(behind: string)
    ensures FirstCut(CAPITALS, behind, Casing(), true, BLOCK).None?
  {
    hide FirstCut, NextKeyword, Ending;
    OverWord(behind, "CASE", " " + Ending(), BLOCK);
    assert BLOCK.blocks + ["CASE"] == NESTED.blocks;
    OverSpace(behind + "CASE", ' ', Ending(), NESTED);
    FreshEnding(behind + "CASE" + " ");
  }

  lemma {:induction false} FreshAtomic(behind: string)
    ensures FirstCut(CAPITALS, behind, Atomic(), true, BLOCK).None?
  {
    hide FirstCut, NextKeyword, Casing;
    OverWord(behind, "ATOMIC", "\n" + Casing(), BLOCK);
    OverSpace(behind + "ATOMIC", '\n', Casing(), BLOCK);
    FreshCasing(behind + "ATOMIC" + "\n");
  }

  lemma {:induction false} AtomicIsNext()
    ensures NextKeyword(CAPITALS, " " + Atomic()) == Some("ATOMIC")
  {
    hide FirstCut, Casing;
    OverSpace("", ' ', Atomic(), START);
    WordIs("ATOMIC", "\n" + Casing());
  }

  /** In a fresh lexer the CASE is a block of its own, and the tail is one statement. */
  lemma {:induction false} TailFresh(behind: string)
    ensures FirstCut(CAPITALS, behind, Tail(), true, START).None?
  {
    hide FirstCut, NextKeyword, Atomic;
    AtomicIsNext();
    OverWord(behind, "BEGIN", " " + Atomic(), START);
    OverSpace(behind + "BEGIN", ' ', Atomic(), BLOCK);
    FreshAtomic(behind + "BEGIN" + " ");
  }

  lemma {:induction false} IgnoringEnding(behind: string)
    ensures FirstCut(CAPITALS, behind, Ending(), true, BLOCK).Some?
  {
    hide FirstCut, NextKeyword;
    EndIsLast();
    OverWord(behind, "END", Closing(), BLOCK);
    assert BLOCK.blocks[..0] == [];
    AtSemicolon(behind + "END", "X", START);
  }

  lemma {:induction false} IgnoringCasing(behind: string)
    ensures FirstCut(CAPITALS, behind, Casing(), true, IGNORING.(blocks := ["BEGIN"])).Some?
  {
    hide FirstCut, NextKeyword, Ending;
    OverWord(behind, "CASE", " " + Ending(), IGNORING.(blocks := ["BEGIN"]));
    OverSpace(behind + "CASE", ' ', Ending(), BLOCK);
    IgnoringEnding(behind + "CASE" + " ");
  }

  lemma {:induction false} IgnoringAtomic(behind: string)
    ensures FirstCut(CAPITALS, behind, Atomic(), true, IGNORING.(blocks := ["BEGIN"])).Some?
  {
    hide FirstCut, NextKeyword, Casing;
    OverWord(behind, "ATOMIC", "\n" + Casing(), IGNORING.(blocks := ["BEGIN"]));
    OverSpace(behind + "ATOMIC", '\n', Casing(), IGNORING.(blocks := ["BEGIN"]));
    IgnoringCasing(behind + "ATOMIC" + "\n");
  }

  /** With CASE still to be ignored, it is cut in two. */
  lemma {:induction false} TailIgnoring(behind: string)
    ensures FirstCut(CAPITALS, behind, Tail(), true, IGNORING).Some?
  {
    hide FirstCut, NextKeyword, Atomic;
    AtomicIsNext();
    OverWord(behind, "BEGIN", " " + Atomic(), IGNORING);
    OverSpace(behind + "BEGIN", ' ', Atomic(), IGNORING.(blocks := ["BEGIN"]));
    IgnoringAtomic(behind + "BEGIN" + " ");
  }

  /** The splitter leaves the comment at the carriage return, and cuts at the semicolon. */
  lemma {:induction false} OverComment(behind: string, s: State)
    requires s.mode.Normal? && s.blocks == []
    ensures FirstCut(CAPITALS, behind, Comment(), true, s) == Some((4, s))
  {
    hide Tail;
    var r1 := "\r" + (";" + Tail());
    var inside := s.(mode := LineComment);
    assert Comment()[..2] == "--" && Comment()[2..] == r1;
    assert Step(CAPITALS, behind, Comment(), true, s) == Move(2, inside, false);
    CutUnfold(CAPITALS, behind, Comment(), true, s);
    assert r1[0] == '\r' && r1[..1] == "\r" && r1[1..] == ";" + Tail();
    assert inside.(mode := Normal) == s;
    assert Step(CAPITALS, behind + "--", r1, true, inside) == Move(1, s, false);
    CutUnfold(CAPITALS, behind + "--", r1, true, inside);
    AtSemicolon(behind + "--" + "\r", Tail(), s);
    hide FirstCut, Step;
  }

  lemma {:induction false} LineIs(line: string, rest: string)
    requires '\n' !in line
    ensures AfterLine(line + ("\n" + rest)) == |line| + 1
    decreases |line|
  {
    if line == "" {
      assert line + ("\n" + rest) == "\n" + rest;
    } else {
      assert (line + ("\n" + rest))[1..] == line[1..] + ("\n" + rest);
      assert (line + ("\n" + rest))[0] == line[0] && line[0] in line;
      LineIs(line[1..], rest);
    }
  }

  /** The look-ahead reads the comment to the newline, and finds CASE behind it. */
  lemma {:induction false} CommentLookAhead()
    ensures NextKeyword(CAPITALS, Comment()) == Some("CASE")
  {
    hide Casing;
    var line := "\r" + (";" + ("BEGIN" + (" " + "ATOMIC")));
    assert Comment()[2..] == line + ("\n" + Casing());
    assert Comment()[..2] == "--" && Comment()[0] == '-';
    LineIs(line, Casing());
    assert (line + ("\n" + Casing()))[|line| + 1..] == Casing();
    CasingIsNext();
  }

  lemma {:induction false} CasingIsNext()
    ensures NextKeyword(CAPITALS, Casing()) == Some("CASE")
  {
    WordIs("CASE", " " + Ending());
  }

  lemma {:induction false} ScriptEnd(behind: string)
    ensures FirstCut(CAPITALS, behind, "END" + Comment(), true, BLOCK) == Some((7, IGNORING))
  {
    hide FirstCut, NextKeyword, Tail;
    CommentLookAhead();
    OverWord(behind, "END", Comment(), BLOCK);
    assert BLOCK.blocks[..0] == [];
    OverComment(behind + "END", IGNORING);
  }

  function Opened(): string {
    "ATOMIC" + (" " + ("END" + Comment()))
  }

  lemma {:induction false} OpenedIgnores(behind: string)
    ensures FirstCut(CAPITALS, behind, Opened(), true, BLOCK) == Some((14, IGNORING))
  {
    hide FirstCut, NextKeyword, Comment;
    var end := "END" + Comment();
    OverWord(behind, "ATOMIC", " " + end, BLOCK);
    OverSpace(behind + "ATOMIC", ' ', end, BLOCK);
    ScriptEnd(behind + "ATOMIC" + " ");
  }

  lemma {:induction false} OpenedIsNext()
    ensures NextKeyword(CAPITALS, " " + Opened()) == Some("ATOMIC")
  {
    hide FirstCut, Comment;
    OverSpace("", ' ', Opened(), START);
    WordIs("ATOMIC", " " + ("END" + Comment()));
  }

  /** The first statement ends with CASE still to be ignored. */
  lemma {:induction false} ScriptIgnores()
    ensures FirstCut(CAPITALS, "", Script(), true, START) == Some((20, IGNORING))
  {
    hide FirstCut, NextKeyword, Opened;
    ScriptIsOpened();
    OpenedIsNext();
    OverWord("", "BEGIN", " " + Opened(), START);
    OverSpace("" + "BEGIN", ' ', Opened(), BLOCK);
    OpenedIgnores("" + "BEGIN" + " ");
    hide Script;
  }

  lemma ScriptIsOpened()
    ensures Script() == "BEGIN" + (" " + Opened())
  {
  }

  lemma {:induction false} ScriptTail()
    ensures |Script()| >= 20 && Script()[20..] == Tail() && '\r' in Script()
  {
    hide Tail;
    var lead := "BEGIN" + (" " + ("ATOMIC" + (" " + ("END" + ("--" + ("\r" + ";"))))));
    assert |lead| == 20;
    assert Script() == lead + Tail();
    assert lead[18] == '\r' && Script()[18] == '\r';
  }

  // ---- The difference it makes --------------------------------------------------------------------

  /**
   Over everything that can follow, a cut may be restarted behind exactly when it does not
   leave a CASE to be ignored.
   */
  lemma {:induction false} OnlyCaseMatters(behind: string, s: State)
    requires Fresh(behind) && s.mode.Normal? && s.blocks == [] && Sensible(s)
    ensures (forall rest :: Slices(CAPITALS, behind, rest, true, s) == Slices(CAPITALS, "", rest, true, START)) <==>
            s.ignored != Some("CASE")
  {
    CapitalsAreSane();
    hide FirstCut, Tail;
    if s.ignored == Some("CASE") {
      TailFresh("");
      TailIgnoring(behind);
      assert s == IGNORING;
      assert |Slices(CAPITALS, behind, Tail(), true, s)| >= 2;
      assert Slices(CAPITALS, "", Tail(), true, START) == [Tail()];
    } else {
      forall rest ensures Slices(CAPITALS, behind, rest, true, s) == Slices(CAPITALS, "", rest, true, START) {
        SlicesAlike(CAPITALS, behind, "", rest, true, s, START);
      }
    }
  }

  lemma {:induction false} StripKeepsFirst(text: string)
    requires text != "" && !CAPITALS.space(text[0])
    ensures StripRight(CAPITALS, text) != "" && StripRight(CAPITALS, text)[0] == text[0]
    decreases |text|
  {
    if CAPITALS.space(text[|text| - 1]) {
      StripKeepsFirst(text[..|text| - 1]);
    }
  }

  /** A slice that starts with a letter is a statement. */
  lemma {:induction false} LetterIsKept(slice: string)
    requires slice != "" && Letter(slice[0])
    ensures Keep(CAPITALS, slice).Some?
  {
    StripKeepsFirst(slice);
    NotComment(Strip(CAPITALS, slice));
  }

  /** With CASE still to be ignored, what is left of the tail is a statement of its own. */
  lemma {:induction false} TailPieces(behind: string)
    ensures var r := FirstCut(CAPITALS, behind, Tail(), true, IGNORING);
      r.Some? && r.value.0 == |Tail()| - 1
    ensures |Tail()| > 1 && Letter(Tail()[0]) && Tail()[|Tail()| - 1..] == "X"
  {
    TailIgnoring(behind);
    hide FirstCut;
    assert forall i :: 0 <= i < |Tail()| && Tail()[i] == ';' ==> i == |Tail()| - 2;
  }

  lemma {:induction false} XIsLast(behind: string, s: State)
    ensures Slices(CAPITALS, behind, "X", true, s) == ["X"]
  {
    hide FirstCut;
    assert FirstCut(CAPITALS, behind, "X", true, s).None?;
  }

  /** One pass finds three statements. */
  lemma {:induction false} OnePassFindsThree()
    ensures |Statements(CAPITALS, Script(), true)| == 3
  {
    hide FirstCut, Script, Tail, Keep;
    ScriptTail();
    ScriptIgnores();
    var head := Script()[..20];
    assert "" + head == head;
    TailPieces(head);
    var n := |Tail()| - 1;
    var after := FirstCut(CAPITALS, head, Tail(), true, IGNORING).value.1;
    XIsLast(head + Tail()[..n], after);
    assert Slices(CAPITALS, head, Tail(), true, IGNORING) == [Tail()[..n]] + ["X"];
    assert Slices(CAPITALS, "", Script(), true, START) == [head] + ([Tail()[..n]] + ["X"]);
    ScriptStarts();
    LetterIsKept(head);
    LetterIsKept(Tail()[..n]);
    LetterIsKept("X");
    KeptFirst(CAPITALS, head, [Tail()[..n]] + ["X"], 0);
    KeptFirst(CAPITALS, Tail()[..n], ["X"], 20);
    KeptFirst(CAPITALS, "X", [], 20 + n);
    assert ["X"] + [] == ["X"];
  }

  lemma ScriptStarts()
    ensures Script() != "" && Letter(Script()[0])
  {
  }

  /** Restarting finds two: behind the first it is a fresh lexer that reads the CASE. */
  lemma {:induction false} RestartFindsTwo()
    ensures |Restarted(CAPITALS, Script(), true)| == 2
  {
    hide FirstCut, Script, Tail, Keep;
    ScriptTail();
    ScriptIgnores();
    ScriptStarts();
    var head := Script()[..20];
    LetterIsKept(head);
    KeptFirst(CAPITALS, head, Slices(CAPITALS, "" + head, Tail(), true, IGNORING), 0);
    var statements := Statements(CAPITALS, Script(), true);
    assert statements[0].1 == 20;
    TailFresh("");
    TailPieces("");
    NoCutStatements(CAPITALS, Tail(), true);
    LetterIsKept(Tail());
    assert Tail()[|Tail()|..] == "";
    EmptyStatements(CAPITALS, true);
    assert Restarted(CAPITALS, "", true) == [];
    assert |Restarted(CAPITALS, Tail(), true)| == 1;
  }

  /** So one pass and the migrator's loop find different statements, because a cut carried a CASE over. */
  lemma {:induction false} RestartDiffers()
    ensures Sane(CAPITALS) && '\r' in Script() && !Paired(Script())
    ensures !NothingCarried(CAPITALS, "", Script(), true, START)
    ensures Restarted(CAPITALS, Script(), true) != Texts(Statements(CAPITALS, Script(), true))
  {
    hide FirstCut, Script, Tail, Restarted, Statements;
    CapitalsAreSane();
    OnePassFindsThree();
    RestartFindsTwo();
    ScriptTail();
    if NothingCarried(CAPITALS, "", Script(), true, START) {
      RestartIsOnePass(CAPITALS, Script(), true);
    }
    if Paired(Script()) {
      PairedRestartsAreOnePass(CAPITALS, Script(), true);
    }
  }
}
