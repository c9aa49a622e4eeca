/**
 The boundary between the console and the three rules engines. Each line the
 player types either parses as a whole number or it does not; the engines only
 ever see the parsed form. Small integer helpers shared by the engines live here.
 */
module Guesses {

  /** One line of player input after `TryParse`: rejected, or a whole number. */
  datatype Input = Invalid | Num(n: int)

  function Abs(x: int): (a: nat)
    ensures a == x || a == -x
  {
    if x < 0 then -x else x
  }

  function Min(a: int, b: int): (m: int)
    ensures m <= a && m <= b
    ensures m == a || m == b
  {
    if a <= b then a else b
  }

  function Max(a: int, b: int): (m: int)
    ensures a <= m && b <= m
    ensures m == a || m == b
  {
    if a <= b then b else a
  }

  /** How many of the given inputs parsed as numbers, i.e. how many were real guesses. */
  function NumCount(inputs: seq<Input>): (c: nat)
    ensures c <= |inputs|
    ensures c == 0 <==> forall i :: 0 <= i < |inputs| ==> inputs[i] == Invalid
  {
    if inputs == [] then 0
    else (if inputs[0].Num? then 1 else 0) + NumCount(inputs[1..])
  }

  /** Regrouping a concatenation; used to carry the replies through each game loop. */
  lemma ConcatAssoc<T>(a: seq<T>, b: seq<T>, c: seq<T>)
    ensures a + (b + c) == (a + b) + c
  {
  }
}
