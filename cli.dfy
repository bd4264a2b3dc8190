/** The console front end's input handling: the player's name, the choice of
    automatic or manual play, and the trimming of every line it forwards. Input
    lines are given as a sequence; the end of the sequence is the end of input. */
module Cli {

  /** White space as the Unicode White_Space property defines it, which is what
      the trimming of input lines removes. */
  predicate IsSpace(c: char) {
    || c == ' ' || c == '\t' || c == '\n' || c == '\U{0B}' || c == '\U{0C}' || c == '\r'
    || c == '\U{85}' || c == '\U{A0}' || c == '\U{1680}'
    || ('\U{2000}' <= c <= '\U{200A}')
    || c == '\U{2028}' || c == '\U{2029}' || c == '\U{202F}' || c == '\U{205F}' || c == '\U{3000}'
  }

  /** The line without its leading white space. */
  function TrimLeft(s: string): (r: string)
    ensures |r| <= |s| && r == s[|s| - |r|..]
    ensures forall i :: 0 <= i < |s| - |r| ==> IsSpace(s[i])
    ensures r == [] || !IsSpace(r[0])
    decreases |s|
  {
    if s != [] && IsSpace(s[0]) then TrimLeft(s[1..]) else s
  }

  /** The line without its trailing white space. */
  function TrimRight(s: string): (r: string)
    ensures |r| <= |s| && r == s[..|r|]
    ensures forall i :: |r| <= i < |s| ==> IsSpace(s[i])
    ensures r == [] || !IsSpace(r[|r| - 1])
    decreases |s|
  {
    if s != [] && IsSpace(s[|s| - 1]) then TrimRight(s[..|s| - 1]) else s
  }

  /** The line without leading and trailing white space. It starts and ends with
      a non-space. */
  function TrimSpace(s: string): (r: string)
    ensures |r| <= |s|
    ensures r == [] || (!IsSpace(r[0]) && !IsSpace(r[|r| - 1]))
  {
    var left := TrimLeft(s);
    var r := TrimRight(left);
    assert r == [] || r[0] == left[0];
    r
  }

  /** Trimming cuts white space only: what is left is the slice of the line that
      follows its leading white space, and everything after it is white space. */
  lemma TrimSpaceCutsOnlySpace(s: string)
    ensures var r, lo := TrimSpace(s), |s| - |TrimLeft(s)|;
      && lo + |r| <= |s| && r == s[lo..lo + |r|]
      && (forall i :: 0 <= i < lo ==> IsSpace(s[i]))
      && (forall i :: lo + |r| <= i < |s| ==> IsSpace(s[i]))
  {
    var left := TrimLeft(s);
    var r, lo := TrimRight(left), |s| - |left|;
    assert left == s[lo..];
    assert r == left[..|r|];
    forall i | lo + |r| <= i < |s|
      ensures IsSpace(s[i])
    {
      assert s[i] == left[i - lo];
    }
  }

  /** A line trims to nothing exactly when it is all white space. */
  lemma TrimSpaceEmptyIffBlank(s: string)
    ensures TrimSpace(s) == [] <==> forall i :: 0 <= i < |s| ==> IsSpace(s[i])
  {
    TrimSpaceCutsOnlySpace(s);
    var r, lo := TrimSpace(s), |s| - |TrimLeft(s)|;
    if r != [] {
      assert s[lo] == r[0];
    }
  }

  /** Trimming twice is trimming once. */
  lemma TrimSpaceIdempotent(s: string)
    ensures TrimSpace(TrimSpace(s)) == TrimSpace(s)
  {
    var r := TrimSpace(s);
    if r != [] {
      assert TrimLeft(r) == r;
      assert TrimRight(r) == r;
    }
  }

  /** A line is taken as it is when it starts and ends with a non-space. */
  lemma TrimSpaceKeepsTrimmed(s: string)
    requires s != [] && !IsSpace(s[0]) && !IsSpace(s[|s| - 1])
    ensures TrimSpace(s) == s
  {
  }

  /** Leading white space is dropped up to the first non-space. */
  lemma {:induction false} TrimLeftPadded(pre: string, rest: string)
    requires forall i :: 0 <= i < |pre| ==> IsSpace(pre[i])
    requires rest == [] || !IsSpace(rest[0])
    ensures TrimLeft(pre + rest) == rest
    decreases |pre|
  {
    if pre == [] {
      assert pre + rest == rest;
    } else {
      assert (pre + rest)[1..] == pre[1..] + rest;
      TrimLeftPadded(pre[1..], rest);
    }
  }

  /** Trailing white space is dropped back to the last non-space. */
  lemma {:induction false} TrimRightPadded(rest: string, post: string)
    requires forall i :: 0 <= i < |post| ==> IsSpace(post[i])
    requires rest == [] || !IsSpace(rest[|rest| - 1])
    ensures TrimRight(rest + post) == rest
    decreases |post|
  {
    if post == [] {
      assert rest + post == rest;
    } else {
      assert (rest + post)[..|rest + post| - 1] == rest + post[..|post| - 1];
      TrimRightPadded(rest, post[..|post| - 1]);
    }
  }

  /** A word padded with white space on both sides trims to the word. */
  lemma TrimSpacePadded(pre: string, word: string, post: string)
    requires forall i :: 0 <= i < |pre| ==> IsSpace(pre[i])
    requires forall i :: 0 <= i < |post| ==> IsSpace(post[i])
    requires word != [] && !IsSpace(word[0]) && !IsSpace(word[|word| - 1])
    ensures TrimSpace(pre + word + post) == word
  {
    assert pre + word + post == pre + (word + post);
    TrimLeftPadded(pre, word + post);
    TrimRightPadded(word, post);
  }

  /** ASCII upper-case letters lowered, everything else kept. */
  function LowerChar(c: char): (d: char)
    ensures 'A' <= c <= 'Z' ==> d as int == c as int + 32
    ensures !('A' <= c <= 'Z') ==> d == c
  {
    if 'A' <= c <= 'Z' then (c as int + 32) as char else c
  }

  /** The line lowered letter by letter. */
  function Lower(s: string): (r: string)
    ensures |r| == |s|
    ensures forall i :: 0 <= i < |s| ==> r[i] == LowerChar(s[i])
  {
    seq(|s|, i requires 0 <= i < |s| => LowerChar(s[i]))
  }

  /** The name used when the player gives none. */
  const DefaultName: string := "Anonymous Hunter"

  /** The player's name: the first input line trimmed, or the default name when
      input has ended or the trimmed line is empty. */
  function PlayerName(lines: seq<string>): (name: string)
    ensures name != []
    ensures !IsSpace(name[0]) && !IsSpace(name[|name| - 1])
    ensures lines != [] && TrimSpace(lines[0]) != [] ==> name == TrimSpace(lines[0])
    ensures lines == [] || TrimSpace(lines[0]) == [] ==> name == DefaultName
  {
    var typed := if lines == [] then "" else TrimSpace(lines[0]);
    if typed == "" then DefaultName else typed
  }

  /** The name prompt keeps a typed name, as its unit test expects. */
  lemma TypedNameKept()
    ensures PlayerName(["John"]) == "John"
  {
    TrimSpaceKeepsTrimmed("John");
  }

  /** An empty line gives the default name, as the unit test expects. */
  lemma EmptyLineGivesDefault()
    ensures PlayerName([""]) == DefaultName
  {
  }

  /** Padding around a typed name is dropped. */
  lemma PaddedNameTrimmed()
    ensures PlayerName(["  Alice \t"]) == "Alice"
  {
    assert "  Alice \t" == "  " + "Alice" + " \t";
    TrimSpacePadded("  ", "Alice", " \t");
  }

  /** How one answer to the mode prompt reads. */
  datatype Answer = Yes | No | Unrecognised

  /** The answers the prompt recognises, once trimmed and lowered. */
  function Recognise(input: string): (a: Answer)
    ensures a == Yes <==> input == "y" || input == "yes"
    ensures a == No <==> input == "n" || input == "no"
  {
    if input == "y" || input == "yes" then Yes
    else if input == "n" || input == "no" then No
    else Unrecognised
  }

  /** One answer line, trimmed and lowered before it is recognised. */
  function Classify(line: string): Answer {
    Recognise(Lower(TrimSpace(line)))
  }

  /** Lowering leaves a line without upper-case ASCII letters as it is. */
  lemma LowerKeepsLowercase(w: string)
    requires forall i :: 0 <= i < |w| ==> !('A' <= w[i] <= 'Z')
    ensures Lower(w) == w
  {
  }

  /** A line that needs neither trimming nor lowering is recognised as it is. */
  lemma ClassifyBare(w: string)
    requires w != [] && !IsSpace(w[0]) && !IsSpace(w[|w| - 1])
    requires forall i :: 0 <= i < |w| ==> !('A' <= w[i] <= 'Z')
    ensures Classify(w) == Recognise(w)
  {
    TrimSpaceKeepsTrimmed(w);
    LowerKeepsLowercase(w);
  }

  /** An answer is read without the white space around it and without regard to
      ASCII case: a padded word reads as the word lowered. */
  lemma ClassifyIgnoresPadding(pre: string, word: string, post: string)
    requires forall i :: 0 <= i < |pre| ==> IsSpace(pre[i])
    requires forall i :: 0 <= i < |post| ==> IsSpace(post[i])
    requires word != [] && !IsSpace(word[0]) && !IsSpace(word[|word| - 1])
    ensures Classify(pre + word + post) == Classify(word) == Recognise(Lower(word))
  {
    TrimSpacePadded(pre, word, post);
    TrimSpaceKeepsTrimmed(word);
  }

  /** The mode prompt's decision: the first recognised answer decides, "y" or
      "yes" for automatic play and "n" or "no" for manual; when input ends first,
      play is manual. Also the number of lines the prompt reads. */
  function AutoMode(lines: seq<string>): (choice: (bool, nat))
    ensures choice.1 <= |lines|
    decreases |lines|
  {
    if lines == [] then (false, 0)
    else match Classify(lines[0])
      case Yes => (true, 1)
      case No => (false, 1)
      case Unrecognised => var (auto, read) := AutoMode(lines[1..]); (auto, read + 1)
  }

  /** The prompt loop: ask, read a line, stop on a recognised answer, repeat on
      anything else, and stop with manual play when input ends. */
  method PromptAutoMode(lines: seq<string>) returns (auto: bool, read: nat)
    ensures (auto, read) == AutoMode(lines)
  {
    auto, read := false, 0;
    while true
      invariant read <= |lines|
      invariant AutoMode(lines) == var (a, n) := AutoMode(lines[read..]); (a, n + read)
      decreases |lines| - read
    {
      if read == |lines| {
        return;
      }
      var input := Classify(lines[read]);
      assert lines[read..][1..] == lines[read + 1..];
      read := read + 1;
      if input == Yes {
        auto := true;
        return;
      } else if input == No {
        auto := false;
        return;
      }
    }
  }

  /** The first recognised answer decides, and all lines before it are read and
      ignored. */
  lemma {:induction false} FirstAnswerDecides(lines: seq<string>, k: nat)
    requires k < |lines| && Classify(lines[k]) != Unrecognised
    requires forall i :: 0 <= i < k ==> Classify(lines[i]) == Unrecognised
    ensures AutoMode(lines) == (Classify(lines[k]) == Yes, k + 1)
    decreases k
  {
    if k > 0 {
      FirstAnswerDecides(lines[1..], k - 1);
    }
  }

  /** Without a recognised answer play is manual, after every line is read. */
  lemma {:induction false} NoAnswerMeansManual(lines: seq<string>)
    requires forall i :: 0 <= i < |lines| ==> Classify(lines[i]) == Unrecognised
    ensures AutoMode(lines) == (false, |lines|)
    decreases |lines|
  {
    if lines != [] {
      NoAnswerMeansManual(lines[1..]);
    }
  }

  /** The four answers of the mode prompt's unit test decide as it expects:
      those starting with 'y' choose automatic play, the others manual play. */
  lemma RecognisedAnswer(answer: string)
    requires answer == "y" || answer == "yes" || answer == "n" || answer == "no"
    ensures Classify(answer) == if answer[0] == 'y' then Yes else No
  {
    ClassifyBare(answer);
  }

  /** The commands forwarded to the engine in manual mode: every input line,
      trimmed. */
  function ForwardedCommands(lines: seq<string>): (commands: seq<string>)
    ensures |commands| == |lines|
    ensures forall i :: 0 <= i < |lines| ==> commands[i] == TrimSpace(lines[i])
  {
    seq(|lines|, i requires 0 <= i < |lines| => TrimSpace(lines[i]))
  }

  /** A padded "hit" still reaches the engine as "hit". */
  lemma PaddedHitForwarded(lines: seq<string>, i: nat)
    requires i < |lines| && lines[i] == " hit\t"
    ensures "hit" in ForwardedCommands(lines)
  {
    assert " hit\t" == " " + "hit" + "\t";
    TrimSpacePadded(" ", "hit", "\t");
    assert ForwardedCommands(lines)[i] == "hit";
  }
}
