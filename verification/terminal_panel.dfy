/**
 * The transcript the terminal panel keeps between frames: everything the
 * shell printed (bounded in size), split at its last newline into the
 * finished lines (`history`) and the line still being written (`prompt`),
 * which the panel draws with the input field right behind it.
 */
module TerminalPanel {
  import opened Strings

  /** Past this many characters the transcript is cut ... */
  const MaxTranscript := 100000
  /** ... down to this many, its newest ones. */
  const KeptTranscript := 50000

  /**
   * The transcript after `newOutput` arrives: appended at the end, and cut
   * to its newest 50000 characters once it is longer than 100000.
   */
  function Appended(total: string, newOutput: string): (r: string)
    ensures |r| <= MaxTranscript
    ensures EndsWith(total + newOutput, r)
    ensures |total| + |newOutput| <= MaxTranscript ==> r == total + newOutput
    ensures |total| + |newOutput| > MaxTranscript ==> |r| == KeptTranscript
    ensures |newOutput| <= |r| ==> EndsWith(r, newOutput)
  {
    var s := total + newOutput;
    if |s| > MaxTranscript then s[|s| - KeptTranscript..] else s
  }

  /**
   * `history` and `prompt` split `total` at its last newline: together they
   * are `total`, the prompt holds no newline, and the history is empty or
   * ends with the newline.
   */
  predicate IsSplit(total: string, history: string, prompt: string) {
    history + prompt == total && '\n' !in prompt && (history == [] || history[|history| - 1] == '\n')
  }

  /** There is only one way to split a text at its last newline. */
  lemma {:induction false} SplitIsUnique(total: string, h1: string, p1: string, h2: string, p2: string)
    requires IsSplit(total, h1, p1) && IsSplit(total, h2, p2)
    ensures h1 == h2 && p1 == p2
  {
    if |h1| < |h2| {
      NewlineInPrompt(total, h1, p1, h2, p2);
    } else if |h2| < |h1| {
      NewlineInPrompt(total, h2, p2, h1, p1);
    } else {
      assert h1 == total[..|h1|] == h2;
      assert p1 == total[|h1|..] == p2;
    }
  }

  /** A longer history ends with a newline that the shorter split would have in its prompt. */
  lemma {:induction false} NewlineInPrompt(total: string, h1: string, p1: string, h2: string, p2: string)
    requires h1 + p1 == total && h2 + p2 == total
    requires h2 != [] && h2[|h2| - 1] == '\n'
    requires |h1| < |h2|
    ensures '\n' in p1
  {
    var k := |h2| - 1;
    assert total[k] == h2[k];
    assert total[k] == p1[k - |h1|];
  }

  /** Cutting just after the last newline splits a text at its last newline. */
  lemma {:induction false} SplitAtNewline(total: string, i: nat)
    requires i < |total| && total[i] == '\n'
    requires forall j :: i < j < |total| ==> total[j] != '\n'
    ensures IsSplit(total, total[..i + 1], total[i + 1..])
  {
    var prompt := total[i + 1..];
    assert total[..i + 1] + prompt == total;
    assert forall j :: 0 <= j < |prompt| ==> prompt[j] == total[i + 1 + j];
  }

  class Transcript {
    var totalOutput: string
    var history: string
    var prompt: string

    ghost predicate Valid()
      reads this
    {
      IsSplit(totalOutput, history, prompt) && |totalOutput| <= MaxTranscript
    }

    /** The three static strings of ShowTerminal start empty. */
    constructor ()
      ensures Valid() && totalOutput == [] && history == [] && prompt == []
    {
      totalOutput, history, prompt := [], [], [];
    }

    /**
     * One frame's update with what the terminal printed since the last one:
     * nothing changes when it printed nothing; otherwise the output is
     * appended (and the transcript cut) and split again at its last newline.
     */
    method Update(newOutput: string)
      requires Valid()
      modifies this
      ensures Valid()
      ensures newOutput == [] ==>
        totalOutput == old(totalOutput) && history == old(history) && prompt == old(prompt)
      ensures newOutput != [] ==> totalOutput == Appended(old(totalOutput), newOutput)
    {
      if newOutput == [] {
        return;
      }
      var total := totalOutput + newOutput;
      if |total| > MaxTranscript {
        total := total[|total| - KeptTranscript..];
      }
      var h, p;
      match LastIndexOfChar(total, '\n') {
        case Some(i) =>
          h, p := total[..i + 1], total[i + 1..];
          SplitAtNewline(total, i);
        case None =>
          h, p := [], total;
      }
      totalOutput, history, prompt := total, h, p;
    }
  }
}
