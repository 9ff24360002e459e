/**
 stripComments in scripts/check-destructive-migrations.js: blanks the comments of a migration,
 leaving every other character, every quoted region and every newline where it was.
 */
module SqlComments {
  datatype Option<+T> = None | Some(value: T)

  /**
   Where a character stands. Opening and Closing hold the second character of a two-character
   token, which is passed over together with the first.
   */
  datatype Mode = Code | Quoted(mark: char) | Line | Block | OpeningLine | OpeningBlock | ClosingBlock

  predicate Pair(sql: string, i: nat, c: char, d: char) {
    i + 1 < |sql| && sql[i] == c && sql[i + 1] == d
  }

  predicate IsQuote(c: char) {
    c == '\'' || c == '"'
  }

  /** A mark that ends a quoted region: one without a backslash before it. */
  predicate Ends(sql: string, i: nat, mark: char) {
    0 < i < |sql| && sql[i] == mark && sql[i - 1] != '\\'
  }

  /** The mode after character i, which stands in mode m. */
  function Next(sql: string, i: nat, m: Mode): Mode
    requires i < |sql|
  {
    match m
    case Code =>
      if IsQuote(sql[i]) then Quoted(sql[i])
      else if Pair(sql, i, '-', '-') then OpeningLine
      else if Pair(sql, i, '/', '*') then OpeningBlock
      else Code
    case Quoted(mark) => if Ends(sql, i, mark) then Code else m
    case Line => if sql[i] == '\n' then Code else Line
    case Block => if Pair(sql, i, '*', '/') then ClosingBlock else Block
    case OpeningLine => Line
    case OpeningBlock => Block
    case ClosingBlock => Code
  }

  function ModeAt(sql: string, i: nat): Mode
    requires i <= |sql|
  {
    if i == 0 then Code else Next(sql, i - 1, ModeAt(sql, i - 1))
  }

  predicate IsOpener(sql: string, i: nat) {
    Pair(sql, i, '-', '-') || Pair(sql, i, '/', '*')
  }

  /** Character i is part of a comment, its markers included. */
  predicate InComment(sql: string, i: nat)
    requires i < |sql|
  {
    var m := ModeAt(sql, i);
    if m.Code? then IsOpener(sql, i) else !m.Quoted?
  }

  predicate Blanked(sql: string, i: nat)
    requires i < |sql|
  {
    InComment(sql, i) && sql[i] != '\n'
  }

  function Stripped(sql: string): string {
    seq(|sql|, i requires 0 <= i < |sql| => if Blanked(sql, i) then ' ' else sql[i])
  }

  /** The scanner's three variables, for a mode it can be in between two rounds of its loop. */
  predicate Shows(m: Mode, inLine: bool, inBlock: bool, quote: Option<char>) {
    match m
    case Code => !inLine && !inBlock && quote.None?
    case Quoted(mark) => !inLine && !inBlock && quote == Some(mark)
    case Line => inLine && !inBlock
    case Block => !inLine && inBlock
    case _ => false
  }

  method StripComments(sql: string) returns (out: string)
    ensures out == Stripped(sql)
  {
    out := "";
    var inLine, inBlock, quote := false, false, None;
    var i := 0;
    while i < |sql|
      invariant i <= |sql| && |out| == i && forall k | 0 <= k < i :: out[k] == Stripped(sql)[k]
      invariant Shows(ModeAt(sql, i), inLine, inBlock, quote) && (inLine || inBlock ==> quote.None?)
    {
      var c := sql[i];
      var next := if i + 1 < |sql| then Some(sql[i + 1]) else None;
      if inLine {
        if c == '\n' {
          inLine := false;
          out := out + [c];
        } else {
          out := out + " ";
        }
      } else if inBlock {
        if c == '*' && next == Some('/') {
          inBlock := false;
          assert ModeAt(sql, i + 1) == ClosingBlock && Blanked(sql, i) && Blanked(sql, i + 1);
          out := out + "  ";
          i := i + 1;
        } else {
          out := out + (if c == '\n' then [c] else " ");
        }
      } else if quote.Some? {
        out := out + [c];
        if c == quote.value && (i == 0 || sql[i - 1] != '\\') {
          quote := None;
        }
      } else if IsQuote(c) {
        quote := Some(c);
        out := out + [c];
      } else if c == '-' && next == Some('-') {
        inLine := true;
        assert ModeAt(sql, i + 1) == OpeningLine && Blanked(sql, i) && Blanked(sql, i + 1);
        out := out + "  ";
        i := i + 1;
      } else if c == '/' && next == Some('*') {
        inBlock := true;
        assert ModeAt(sql, i + 1) == OpeningBlock && Blanked(sql, i) && Blanked(sql, i + 1);
        out := out + "  ";
        i := i + 1;
      } else {
        out := out + [c];
      }
      i := i + 1;
    }
  }

  // ---- What the modes mean ----

  /** The quoted region opened by the mark at o has not ended before i. */
  predicate QuotedFrom(sql: string, o: nat, i: nat)
    requires i <= |sql|
  {
    o < i && ModeAt(sql, o).Code? && IsQuote(sql[o]) && forall k | o < k < i :: !Ends(sql, k, sql[o])
  }

  /** The line comment opened at o has not met a newline before i. */
  predicate LineFrom(sql: string, o: nat, i: nat)
    requires i <= |sql|
  {
    o < i && ModeAt(sql, o).Code? && Pair(sql, o, '-', '-') && forall k | o + 2 <= k < i :: sql[k] != '\n'
  }

  predicate IsCloser(sql: string, k: nat) {
    Pair(sql, k, '*', '/')
  }

  /** The block comment opened at o has not met its closing marker before i. */
  predicate BlockFrom(sql: string, o: nat, i: nat)
    requires i <= |sql|
  {
    o < i && ModeAt(sql, o).Code? && Pair(sql, o, '/', '*') && forall k | o + 2 <= k && k + 1 < i :: !IsCloser(sql, k)
  }

  predicate InBlock(m: Mode) {
    m.OpeningBlock? || m.Block? || m.ClosingBlock?
  }

  predicate InLine(m: Mode) {
    m.OpeningLine? || m.Line?
  }

  /** Every mode but Code traces back to the opener that caused it. */
  lemma {:induction false} ModesHaveOpeners(sql: string, i: nat) returns (o: nat)
    requires i <= |sql|
    ensures ModeAt(sql, i).Quoted? ==> QuotedFrom(sql, o, i) && ModeAt(sql, i).mark == sql[o]
    ensures InLine(ModeAt(sql, i)) ==> LineFrom(sql, o, i)
    ensures InBlock(ModeAt(sql, i)) ==> BlockFrom(sql, o, i)
    ensures ModeAt(sql, i).Line? || ModeAt(sql, i).Block? ==> o + 2 <= i
    ensures ModeAt(sql, i).OpeningLine? || ModeAt(sql, i).OpeningBlock? ==> o + 1 == i
    ensures ModeAt(sql, i).Block? && o + 2 <= i - 1 ==> !IsCloser(sql, i - 1)
  {
    if i == 0 || ModeAt(sql, i - 1).Code? {
      o := if i == 0 then 0 else i - 1;
    } else {
      o := ModesHaveOpeners(sql, i - 1);
    }
  }

  lemma {:induction false} OpenersHold(sql: string, o: nat, i: nat)
    requires i <= |sql|
    ensures QuotedFrom(sql, o, i) ==> ModeAt(sql, i) == Quoted(sql[o])
    ensures LineFrom(sql, o, i) ==> ModeAt(sql, i) == if i == o + 1 then OpeningLine else Line
    ensures BlockFrom(sql, o, i) ==> InBlock(ModeAt(sql, i))
    ensures BlockFrom(sql, o, i) ==> (ModeAt(sql, i).OpeningBlock? <==> i == o + 1)
    ensures BlockFrom(sql, o, i) && ModeAt(sql, i).ClosingBlock? ==> o + 3 <= i && IsCloser(sql, i - 1)
  {
    if o + 1 < i {
      OpenersHold(sql, o, i - 1);
    }
  }

  predicate OpensComment(sql: string, i: nat)
    requires i <= |sql|
  {
    ModeAt(sql, i).Code? && IsOpener(sql, i)
  }

  predicate InLineComment(sql: string, i: nat)
    requires i <= |sql|
  {
    exists o | 0 <= o < i :: LineFrom(sql, o, i)
  }

  predicate InBlockComment(sql: string, i: nat)
    requires i <= |sql|
  {
    exists o | 0 <= o < i :: BlockFrom(sql, o, i)
  }

  /**
   What a comment is: a character is in one exactly when it opens one outside quotes and
   comments, or one opened so has not been ended before it, by a newline or by a closing marker.
   */
  lemma CommentMeaning(sql: string, i: nat)
    requires i < |sql|
    ensures InComment(sql, i) <==> OpensComment(sql, i) || InLineComment(sql, i) || InBlockComment(sql, i)
  {
    var o := ModesHaveOpeners(sql, i);
    forall p
      ensures LineFrom(sql, p, i) || BlockFrom(sql, p, i) ==> InComment(sql, i)
    {
      OpenersHold(sql, p, i);
    }
  }

  /**
   What a quoted region is: a mark outside quotes and comments, up to the next one of its kind
   without a backslash.
   */
  lemma QuotedMeaning(sql: string, i: nat)
    requires i <= |sql|
    ensures ModeAt(sql, i).Quoted? <==> exists o :: QuotedFrom(sql, o, i)
  {
    var o := ModesHaveOpeners(sql, i);
    forall p
      ensures QuotedFrom(sql, p, i) ==> ModeAt(sql, i).Quoted?
    {
      OpenersHold(sql, p, i);
    }
  }

  // ---- What stripping keeps ----

  /** The newlines before a character. */
  function NewlinesBefore(s: string, i: nat): set<nat> {
    set k | 0 <= k < |s| && k < i && s[k] == '\n'
  }

  /** The number of the line a character stands on. */
  function LineNumber(s: string, i: nat): nat {
    1 + |NewlinesBefore(s, i)|
  }

  /** Reported line numbers are right: newlines stay where they are, so every position keeps its line. */
  lemma LineNumbersAreKept(sql: string, i: nat)
    requires i <= |sql|
    ensures |Stripped(sql)| == |sql|
    ensures forall k | 0 <= k < |sql| :: Stripped(sql)[k] == '\n' <==> sql[k] == '\n'
    ensures LineNumber(Stripped(sql), i) == LineNumber(sql, i)
  {
    assert NewlinesBefore(Stripped(sql), i) == NewlinesBefore(sql, i);
  }

  /** Outside comments nothing changes, quoted regions and their marks included. */
  lemma OnlyCommentsAreBlanked(sql: string, i: nat)
    requires i < |sql|
    ensures Stripped(sql)[i] != sql[i] ==> InComment(sql, i) && Stripped(sql)[i] == ' '
    ensures InComment(sql, i) ==> Stripped(sql)[i] == ' ' || Stripped(sql)[i] == sql[i] == '\n'
    ensures ModeAt(sql, i).Quoted? || (ModeAt(sql, i).Code? && IsQuote(sql[i])) ==> Stripped(sql)[i] == sql[i]
  {
  }

  /** Reading the output, the scanner is in a quoted region where it was in one before, and in code everywhere else. */
  function Flattened(m: Mode): Mode {
    if m.Quoted? then m else Code
  }

  lemma {:induction false} OutputModes(sql: string, i: nat)
    requires i <= |sql|
    ensures ModeAt(Stripped(sql), i) == Flattened(ModeAt(sql, i))
  {
    if i > 0 {
      OutputModes(sql, i - 1);
    }
  }

  /** Nothing is left that opens a comment: no character of the output is in one. */
  lemma OutputHasNoComments(sql: string, i: nat)
    requires i < |sql|
    ensures !InComment(Stripped(sql), i)
    ensures !ModeAt(sql, i).Quoted? ==> !IsOpener(Stripped(sql), i)
  {
    OutputModes(sql, i);
  }

  /** Stripping again changes nothing, whatever the input, unterminated comments and quotes included. */
  lemma StrippingIsIdempotent(sql: string)
    ensures Stripped(Stripped(sql)) == Stripped(sql)
  {
    forall i | 0 <= i < |sql|
      ensures Stripped(Stripped(sql))[i] == Stripped(sql)[i]
    {
      OutputHasNoComments(sql, i);
    }
  }

  /** Texts without comments are left alone, and only those. */
  lemma UnchangedExactlyWithoutComments(sql: string)
    ensures Stripped(sql) == sql <==> forall i | 0 <= i < |sql| :: !InComment(sql, i)
  {
    if i :| 0 <= i < |sql| && InComment(sql, i) {
      var o := ModesHaveOpeners(sql, i);
      if ModeAt(sql, i).Code? {
        o := i;
      }
      assert IsOpener(sql, o) && Stripped(sql)[o] == ' ' != sql[o];
    }
  }

  // ---- PostgreSQL's own reading ----

  /**
   How PostgreSQL reads the same text: a backslash means nothing in its standard strings, and block
   comments nest. Comment holds how many are open; inToken marks the second character of a marker.
   */
  datatype Reading = Top(mode: Mode) | Comment(depth: nat, inToken: bool)

  function ReadOn(sql: string, i: nat, r: Reading): Reading
    requires i < |sql|
  {
    var c, d := sql[i], if i + 1 < |sql| then sql[i + 1] else '\n';
    match r
    case Comment(depth, inToken) =>
      if inToken then (if depth == 0 then Top(Code) else Comment(depth, false))
      else if c == '/' && d == '*' then Comment(depth + 1, true)
      else if c == '*' && d == '/' && depth > 0 then Comment(depth - 1, true)
      else r
    case Top(m) =>
      match m
      case Quoted(mark) => Top(if c == mark then Code else m)
      case Code =>
        if c == '\'' || c == '"' then Top(Quoted(c))
        else if c == '-' && d == '-' then Top(OpeningLine)
        else if c == '/' && d == '*' then Comment(1, true)
        else Top(Code)
      case OpeningLine => Top(Line)
      case _ => Top(if c == '\n' then Code else Line)
  }

  function ReadingAt(sql: string, i: nat): Reading
    requires i <= |sql|
  {
    if i == 0 then Top(Code) else ReadOn(sql, i - 1, ReadingAt(sql, i - 1))
  }

  /** Both take the character to stand in the same kind of place. */
  predicate Agree(m: Mode, r: Reading) {
    match r
    case Comment(_, _) => InBlock(m)
    case Top(top) => !InBlock(m) && (InLine(m) <==> InLine(top)) && (InLine(m) || m == top)
  }

  predicate AgreeUpTo(sql: string, n: nat)
    requires n <= |sql|
  {
    forall i | 0 <= i <= n :: Agree(ModeAt(sql, i), ReadingAt(sql, i))
  }

  /** A mark inside a quoted region with a backslash before it. */
  predicate EscapedMark(sql: string, i: nat) {
    0 < i < |sql| && ModeAt(sql, i).Quoted? && sql[i] == ModeAt(sql, i).mark && sql[i - 1] == '\\'
  }

  /** A block comment opened inside a block comment. */
  predicate NestedOpener(sql: string, i: nat) {
    i < |sql| && ModeAt(sql, i).Block? && Pair(sql, i, '/', '*')
  }

  /** A block comment with another opened inside it, that the scanner takes to have ended. */
  predicate NestedAndEnded(sql: string, i: nat, j: nat) {
    NestedOpener(sql, i) && i < j <= |sql| && !InBlock(ModeAt(sql, j))
  }

  /** In step to the character, tokens and comment depth included. */
  predicate Aligned(m: Mode, r: Reading) {
    if m.OpeningBlock? then r == Comment(1, true)
    else if m.Block? then r == Comment(1, false)
    else if m.ClosingBlock? then r == Comment(0, true)
    else r == Top(m)
  }

  /** Both in a comment, PostgreSQL in one more than the scanner knows of. */
  predicate Deep(m: Mode, r: Reading) {
    r.Comment? && ((m.Block? && r.depth >= 2) || (m.ClosingBlock? && r.depth >= 1))
  }

  predicate AlignedAt(sql: string, i: nat)
    requires i <= |sql|
  {
    Aligned(ModeAt(sql, i), ReadingAt(sql, i))
  }

  predicate DeepAt(sql: string, i: nat)
    requires i <= |sql|
  {
    Deep(ModeAt(sql, i), ReadingAt(sql, i))
  }

  lemma AlignedStep(sql: string, i: nat)
    requires i < |sql| && AlignedAt(sql, i)
    ensures !EscapedMark(sql, i) && !NestedOpener(sql, i) ==> AlignedAt(sql, i + 1)
    ensures NestedOpener(sql, i) ==> DeepAt(sql, i + 1) && ModeAt(sql, i + 1).Block?
    ensures EscapedMark(sql, i) ==> !Agree(ModeAt(sql, i + 1), ReadingAt(sql, i + 1))
  {
  }

  /** As long as both agree, they are aligned, or both in a comment that PostgreSQL takes to be deeper. */
  lemma {:induction false} AgreementIsTracked(sql: string, i: nat)
    requires i <= |sql| && AgreeUpTo(sql, i)
    ensures AlignedAt(sql, i) || DeepAt(sql, i)
  {
    if i > 0 {
      AgreementIsTracked(sql, i - 1);
      if AlignedAt(sql, i - 1) {
        AlignedStep(sql, i - 1);
      }
    }
  }

  /** And once deep they stay so: the scanner cannot leave the comment without parting from PostgreSQL. */
  lemma {:induction false} DeepStays(sql: string, i: nat, j: nat)
    requires i <= j <= |sql| && DeepAt(sql, i) && AgreeUpTo(sql, j)
    ensures DeepAt(sql, j)
  {
    if i < j {
      DeepStays(sql, i, j - 1);
    }
  }

  lemma ClosingIsEnding(sql: string, k: nat, i: nat)
    requires k < i <= |sql| && NestedOpener(sql, k) && ModeAt(sql, i).ClosingBlock?
    ensures exists j :: NestedAndEnded(sql, k, j)
  {
    assert NestedAndEnded(sql, k, i + 1);
  }

  /** Deep in a comment opened inside another, which has not ended. */
  predicate DeepInside(sql: string, i: nat)
    requires i <= |sql|
  {
    DeepAt(sql, i) && ModeAt(sql, i).Block? && exists k | 0 <= k < i :: NestedOpener(sql, k)
  }

  ghost predicate Calm(sql: string) {
    (forall i :: !EscapedMark(sql, i)) && (forall i, j :: !NestedAndEnded(sql, i, j))
  }

  lemma DeepInsideStep(sql: string, i: nat)
    requires i < |sql| && DeepInside(sql, i) && Calm(sql)
    ensures DeepInside(sql, i + 1)
  {
    var k :| 0 <= k < i && NestedOpener(sql, k);
    if ModeAt(sql, i + 1).ClosingBlock? {
      ClosingIsEnding(sql, k, i + 1);
    }
  }

  /** Without an escaped mark, and with no nested comment ended, they agree as far as one looks. */
  lemma {:induction false} AgreementGoesOn(sql: string, i: nat)
    requires i <= |sql| && Calm(sql)
    ensures AlignedAt(sql, i) || DeepInside(sql, i)
    ensures Agree(ModeAt(sql, i), ReadingAt(sql, i))
  {
    if i > 0 {
      AgreementGoesOn(sql, i - 1);
      if AlignedAt(sql, i - 1) {
        AlignedStep(sql, i - 1);
      } else {
        DeepInsideStep(sql, i - 1);
      }
    }
  }

  /**
   When exactly the scanner and PostgreSQL take every character the same: if and only if no quoted
   region holds a mark behind a backslash and no comment with another one opened inside it is ended.
   */
  lemma ReadsLikePostgresExactly(sql: string)
    ensures AgreeUpTo(sql, |sql|) <==> Calm(sql)
  {
    if AgreeUpTo(sql, |sql|) {
      forall i: nat
        ensures !EscapedMark(sql, i)
      {
        if EscapedMark(sql, i) {
          AgreementIsTracked(sql, i);
          AlignedStep(sql, i);
        }
      }
      forall i: nat, j: nat
        ensures !NestedAndEnded(sql, i, j)
      {
        if NestedAndEnded(sql, i, j) {
          AgreementIsTracked(sql, i);
          if AlignedAt(sql, i) {
            AlignedStep(sql, i);
          }
          DeepStays(sql, i + 1, j);
        }
      }
    }
    if Calm(sql) {
      forall i | 0 <= i <= |sql|
        ensures Agree(ModeAt(sql, i), ReadingAt(sql, i))
      {
        AgreementGoesOn(sql, i);
      }
    }
  }

  /** The text begins with a string of one backslash, a blank, and a string of two dashes. */
  predicate BeginsWithTwoStrings(sql: string) {
    && |sql| >= 8
    && sql[0] == '\'' && sql[1] == '\\' && sql[2] == '\'' && sql[3] == ' '
    && sql[4] == '\'' && sql[5] == '-' && sql[6] == '-' && sql[7] == '\''
  }

  /** The guard can miss a statement: PostgreSQL reads the rest of that line as code, and the scanner blanks it. */
  lemma AStatementIsBlanked(sql: string, i: nat)
    requires BeginsWithTwoStrings(sql) && 8 <= i < |sql| && forall k | 8 <= k <= i :: sql[k] != '\n'
    ensures ReadingAt(sql, 8) == Top(Code)
    ensures InComment(sql, i) && Stripped(sql)[i] == ' '
  {
    ReadsTwoStrings(sql);
    ScansTwoStrings(sql);
    LineGoesOn(sql, 8, i);
  }

  lemma ReadsTwoStrings(sql: string)
    requires BeginsWithTwoStrings(sql)
    ensures ReadingAt(sql, 8) == Top(Code)
  {
    assert ReadingAt(sql, 1) == Top(Quoted('\''));
    assert ReadingAt(sql, 3) == Top(Code);
    assert ReadingAt(sql, 5) == Top(Quoted('\''));
    assert ReadingAt(sql, 7) == Top(Quoted('\''));
  }

  lemma ScansTwoStrings(sql: string)
    requires BeginsWithTwoStrings(sql)
    ensures ModeAt(sql, 8) == Line
  {
    assert ModeAt(sql, 1) == Quoted('\'');
    assert ModeAt(sql, 3) == Quoted('\'');
    assert ModeAt(sql, 5) == Code;
    assert ModeAt(sql, 6) == OpeningLine;
  }

  lemma {:induction false} LineGoesOn(sql: string, i: nat, j: nat)
    requires i <= j <= |sql| && ModeAt(sql, i) == Line && forall k | i <= k < j :: sql[k] != '\n'
    ensures ModeAt(sql, j) == Line
  {
    if i < j {
      LineGoesOn(sql, i, j - 1);
    }
  }
}
