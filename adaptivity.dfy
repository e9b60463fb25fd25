/** `get_next_level`: the adaptive rule that picks the difficulty of the next
    text from the last quiz score (percent) and the reading time (minutes). */
module Adaptivity {

  datatype Level = Simpler | Same | Harder

  /** The label the application shows and passes on. */
  function Name(level: Level): (name: string)
    ensures name == "simpler" || name == "same" || name == "harder"
  {
    match level
    case Simpler => "simpler"
    case Same => "same"
    case Harder => "harder"
  }

  /** Difficulty order: simpler < same < harder. */
  function Rank(level: Level): (n: nat)
    ensures n <= 2
  {
    match level
    case Simpler => 0
    case Same => 1
    case Harder => 2
  }

  /** The rule as the code writes it: a reading time is only compared when
      it is truthy (non-zero); then a high score asks for harder text, a
      middling one for the same, and anything else for simpler text. */
  function NextLevel(score: real, readingTime: real): (r: Level)
    ensures r == Simpler <==> readingTime > 30.0 || score < 50.0
    ensures r == Harder <==> readingTime <= 30.0 && score >= 80.0
    ensures r == Same <==> readingTime <= 30.0 && 50.0 <= score < 80.0
  {
    if readingTime != 0.0 && readingTime > 30.0 then Simpler
    else if score >= 80.0 then Harder
    else if 50.0 <= score < 80.0 then Same
    else Simpler
  }

  /** `get_next_level` returns one of the three labels. */
  function GetNextLevel(score: real, readingTime: real): (name: string)
    ensures name == "simpler" || name == "same" || name == "harder"
    ensures name == "simpler" <==> readingTime > 30.0 || score < 50.0
  {
    Name(NextLevel(score, readingTime))
  }

  /** Names and levels are in one-to-one correspondence. */
  lemma NameInjective(a: Level, b: Level)
    requires Name(a) == Name(b)
    ensures a == b
  {
  }

  /** With the reading time fixed, a higher score never asks for simpler text. */
  lemma MonotoneInScore(s1: real, s2: real, readingTime: real)
    requires s1 <= s2
    ensures Rank(NextLevel(s1, readingTime)) <= Rank(NextLevel(s2, readingTime))
  {
  }

  /** With the score fixed, a longer reading time never asks for harder text. */
  lemma AntitoneInReadingTime(score: real, t1: real, t2: real)
    requires t1 <= t2
    ensures Rank(NextLevel(score, t2)) <= Rank(NextLevel(score, t1))
  {
  }
}
