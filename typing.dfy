/**
 * The typing reveal of the hero heading (script.js, "Typing Animation"):
 * `type()` appends one character of the name per call and schedules itself
 * again until the name is exhausted.
 */
module Typing {

  /** The text typed out. */
  const Text: string := "Zarif Haikal"

  class Typewriter {
    /** The `textContent` of `.typing-text`. */
    var textContent: string
    /** The counter `i`: how many characters have been appended. */
    var i: nat
    /** The content before the first step. */
    ghost const initial: string

    ghost predicate Valid()
      reads this
    {
      i <= |Text| && textContent == initial + Text[..i]
    }

    constructor (content: string)
      ensures Valid() && i == 0 && initial == content && textContent == content
    {
      textContent := content;
      i := 0;
      initial := content;
    }

    /** One call of `type()`; `rescheduled` is whether it set the next timer. */
    method Type() returns (rescheduled: bool)
      requires Valid()
      modifies this
      ensures Valid()
      ensures rescheduled <==> old(i) < |Text|
      ensures i == if rescheduled then old(i) + 1 else old(i)
      ensures textContent == if rescheduled then old(textContent) + [Text[old(i)]] else old(textContent)
    {
      if i < |Text| {
        textContent := textContent + [Text[i]];
        i := i + 1;
        rescheduled := true;
      } else {
        rescheduled := false;
      }
    }

    /** The timer chain from the first call: `type()` runs until a call does not
        reschedule. It is called once per character and once more to stop. */
    method Run() returns (calls: nat)
      requires Valid() && i == 0
      modifies this
      ensures Valid()
      ensures textContent == initial + Text && i == |Text|
      ensures calls == |Text| + 1
    {
      calls := 0;
      var again := true;
      while again
        invariant Valid()
        invariant again ==> calls == i
        invariant !again ==> calls == i + 1 && i == |Text|
        decreases |Text| - i + (if again then 1 else 0)
      {
        again := Type();
        calls := calls + 1;
      }
      assert Text[..|Text|] == Text;
    }
  }
}
