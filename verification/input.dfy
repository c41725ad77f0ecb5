/**
 The keyboard state and its two event handlers (js/index.js:1-31 and
 js/index.js:217-251). Only `w`, `a` and `d` are ever written; the other flags
 of the `keys` table stay false and are not modelled.
 */
module Input {

  /** The global `lastKey`: `undefined` until `a` or `d` is first pressed. */
  datatype LastKey = NoKey | LastA | LastD

  datatype InputState = InputState(w: bool, a: bool, d: bool, lastKey: LastKey)

  const Released := InputState(false, false, false, NoKey)

  /** `toLowerCase` on the letters A to Z. */
  function LowerChar(c: char): char {
    if 'A' <= c <= 'Z' then (c as int - 'A' as int + 'a' as int) as char else c
  }

  function Lower(s: string): (r: string)
    ensures |r| == |s|
    ensures forall i :: 0 <= i < |s| ==> r[i] == LowerChar(s[i])
  {
    if |s| == 0 then [] else [LowerChar(s[0])] + Lower(s[1..])
  }

  /** A key name lower-cases to the one-letter name `[c]` exactly when it is
      that letter in either case. */
  lemma LowerIsLetter(s: string, c: char)
    requires 'a' <= c <= 'z'
    ensures Lower(s) == [c] <==> (s == [c] || s == [c - 'a' + 'A'])
  {
    if s == [c] || s == [c - 'a' + 'A'] {
      assert Lower(s)[0] == c;
    }
  }

  /** The `keydown` handler. */
  function KeyDown(st: InputState, key: string): (r: InputState)
    ensures key == "w" || key == "W" ==> r == st.(w := true)
    ensures key == "a" || key == "A" ==> r == st.(a := true, lastKey := LastA)
    ensures key == "d" || key == "D" ==> r == st.(d := true, lastKey := LastD)
    ensures key !in {"w", "W", "a", "A", "d", "D"} ==> r == st
  {
    LowerIsLetter(key, 'w');
    LowerIsLetter(key, 'a');
    LowerIsLetter(key, 'd');
    var k := Lower(key);
    if k == "w" then st.(w := true)
    else if k == "d" then st.(d := true, lastKey := LastD)
    else if k == "a" then st.(a := true, lastKey := LastA)
    else st
  }

  /** The `keyup` handler: it clears a flag and never touches `lastKey`. */
  function KeyUp(st: InputState, key: string): (r: InputState)
    ensures r.lastKey == st.lastKey
    ensures key == "w" || key == "W" ==> r == st.(w := false)
    ensures key == "a" || key == "A" ==> r == st.(a := false)
    ensures key == "d" || key == "D" ==> r == st.(d := false)
    ensures key !in {"w", "W", "a", "A", "d", "D"} ==> r == st
  {
    LowerIsLetter(key, 'w');
    LowerIsLetter(key, 'a');
    LowerIsLetter(key, 'd');
    var k := Lower(key);
    if k == "w" then st.(w := false)
    else if k == "d" then st.(d := false)
    else if k == "a" then st.(a := false)
    else st
  }

  /** Lower-casing twice is lower-casing once. */
  lemma {:induction false} LowerIdempotent(s: string)
    ensures Lower(Lower(s)) == Lower(s)
    decreases |s|
  {
    if |s| > 0 {
      LowerIdempotent(s[1..]);
      assert Lower(s)[1..] == Lower(s[1..]);
    }
  }

  /** Both handlers see a key name only through its lower-case form. */
  lemma CaseInsensitive(st: InputState, key: string)
    ensures KeyDown(st, key) == KeyDown(st, Lower(key))
    ensures KeyUp(st, key) == KeyUp(st, Lower(key))
  {
    LowerIdempotent(key);
  }

  /** Pressing and releasing a horizontal key restores its flag but leaves it
      recorded as the last key pressed. */
  lemma TapRemembersLastKey(st: InputState)
    ensures KeyUp(KeyDown(st, "a"), "a") == st.(a := false, lastKey := LastA)
    ensures KeyUp(KeyDown(st, "d"), "d") == st.(d := false, lastKey := LastD)
    ensures KeyUp(KeyDown(st, "w"), "w") == st.(w := false)
  {
  }
}
