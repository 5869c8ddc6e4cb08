/** Short-code generation: a string of a given length drawn from the 62
    characters of `ascii_letters + digits`. The random source is an oracle:
    the caller supplies the alphabet positions drawn, one per character. */
module ShortCode {

  /** The length the service asks for. */
  const DEFAULT_LENGTH: nat := 6

  /** A position in the alphabet, as one random draw yields it. */
  type Pick = i: int | 0 <= i < 62

  predicate IsAlphanumeric(c: char) {
    'a' <= c <= 'z' || 'A' <= c <= 'Z' || '0' <= c <= '9'
  }

  /** A code of `length` ASCII letters and digits. */
  predicate IsShortCode(code: string, length: nat) {
    |code| == length && forall i :: 0 <= i < |code| ==> IsAlphanumeric(code[i])
  }

  /** The alphabet in its order: `a` to `z`, then `A` to `Z`, then `0` to `9`. */
  function Symbol(p: Pick): (c: char)
    ensures IsAlphanumeric(c)
  {
    if p < 26 then ('a' as int + p) as char
    else if p < 52 then ('A' as int + p - 26) as char
    else ('0' as int + p - 52) as char
  }

  /** The position of a letter or digit in the alphabet. */
  function PickOf(c: char): (p: Pick)
    requires IsAlphanumeric(c)
    ensures Symbol(p) == c
  {
    if 'a' <= c <= 'z' then c as int - 'a' as int
    else if 'A' <= c <= 'Z' then 26 + (c as int - 'A' as int)
    else 52 + (c as int - '0' as int)
  }

  /** The code spelled by `length` draws from the alphabet, one character per draw. */
  function GenerateShortCode(length: nat, picks: seq<Pick>): (code: string)
    requires |picks| == length
    ensures IsShortCode(code, length)
  {
    if length == 0 then [] else [Symbol(picks[0])] + GenerateShortCode(length - 1, picks[1..])
  }

  /** The draws that spell `code`. */
  function PicksOf(code: string): (picks: seq<Pick>)
    requires IsShortCode(code, |code|)
    ensures |picks| == |code|
  {
    if |code| == 0 then [] else [PickOf(code[0])] + PicksOf(code[1..])
  }

  /** Every code of letters and digits is the outcome of some draws, so the
      oracle constrains the generator by length and alphabet only. */
  lemma {:induction false} GeneratorReachesEveryCode(code: string)
    requires IsShortCode(code, |code|)
    ensures GenerateShortCode(|code|, PicksOf(code)) == code
  {
    if |code| > 0 {
      assert IsShortCode(code[1..], |code[1..]|);
      GeneratorReachesEveryCode(code[1..]);
    }
  }
}
