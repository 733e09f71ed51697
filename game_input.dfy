/// The key-press edge detector of the game input handling.
module GameInput {

  /** A key code of the keyboard; the keyboard state is the set of keys held down. */
  type Key = int

  /** One call of IsDown: the result, and the new value of the "down" field. */
  function Observe(down: bool, pressed: bool): (o: (bool, bool))
    ensures o.0 ==> !down && pressed
    ensures !down && pressed ==> o.0
    ensures o.1 == pressed
  {
    if !down && pressed then (true, true)
    else if down && !pressed then (false, false)
    else (false, down)
  }

  /** The results of successive calls, starting from `down`, seeing the key pressed or not. */
  function Results(down: bool, presses: seq<bool>): (rs: seq<bool>)
    ensures |rs| == |presses|
    decreases |presses|
  {
    if presses == [] then []
    else
      var o := Observe(down, presses[0]);
      [o.0] + Results(o.1, presses[1..])
  }

  /** A call after the first reports a press exactly when the key is held now and was up at the call before. */
  lemma {:induction false} ResultAfterFirst(down: bool, presses: seq<bool>, i: nat)
    requires 1 <= i < |presses|
    ensures Results(down, presses)[i] == (!presses[i - 1] && presses[i])
    decreases i
  {
    var o := Observe(down, presses[0]);
    var rest := presses[1..];
    assert Results(down, presses)[i] == Results(o.1, rest)[i - 1];
    if i > 1 {
      ResultAfterFirst(o.1, rest, i - 1);
    }
  }

  /** The first call reports a press exactly when the key is held and was not marked down. */
  lemma ResultFirst(down: bool, presses: seq<bool>)
    requires presses != []
    ensures Results(down, presses)[0] == (!down && presses[0])
  {
  }

  /** While the key stays held, further calls report nothing. */
  lemma HeldReportsNothing(down: bool, presses: seq<bool>, i: nat)
    requires 1 <= i < |presses| && presses[i - 1] && presses[i]
    ensures !Results(down, presses)[i]
  {
    ResultAfterFirst(down, presses, i);
  }

  /** Between two reported presses some call saw the key up. */
  lemma ReleaseBetweenPresses(down: bool, presses: seq<bool>, i: nat, j: nat)
    requires i < j < |presses|
    requires Results(down, presses)[i] && Results(down, presses)[j]
    ensures exists k :: i < k < j && !presses[k]
  {
    ResultAfterFirst(down, presses, j);
    if i == 0 {
      ResultFirst(down, presses);
    } else {
      ResultAfterFirst(down, presses, i);
    }
    assert i < j - 1 && !presses[j - 1];
  }

  /** KeyStateWatcher: remembers whether its key was seen down. */
  class KeyStateWatcher {
    const key: Key
    var down: bool

    constructor (key: Key)
      ensures this.key == key && !down
    {
      this.key := key;
      down := false;
    }

    /** True only on an up-to-down transition of the key; `down` then follows the key. */
    method IsDown(kb: set<Key>) returns (r: bool)
      modifies this
      ensures (r, down) == Observe(old(down), key in kb)
    {
      if !down && key in kb {
        down := true;
        return true;
      } else if down && key !in kb {
        down := false;
      }
      return false;
    }
  }
}
