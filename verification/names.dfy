/** `randomFileName` (src/index.ts:12-22): an 8-symbol name drawn from the
    alphabet. `Math.floor(Math.random() * chars.length)` is replaced by an
    injected stream of draws, each already a position in the alphabet. */
module RandomNames {
  import opened Alphabet

  const FILENAME_LENGTH: nat := 8

  /** The random stream: draw n is `rand(n)`. */
  type RandomSource = nat -> SymbolIndex

  /** The name built from draws `start` .. `start + 7`, one symbol per draw. */
  function RandomFileName(rand: RandomSource, start: nat): (name: string)
    ensures |name| == FILENAME_LENGTH
    ensures forall i :: 0 <= i < |name| ==>
              IsAlphanumeric(name[i]) && IndexOfSymbol(name[i]) == rand(start + i)
  {
    AlphabetLayout();
    seq(FILENAME_LENGTH, i requires 0 <= i < FILENAME_LENGTH => CHARS[rand(start + i)])
  }

  /** The draws `start` .. `start + 7` that one name consumes. */
  function Draws(rand: RandomSource, start: nat): seq<SymbolIndex> {
    seq(FILENAME_LENGTH, i requires 0 <= i < FILENAME_LENGTH => rand(start + i))
  }

  /** Two names coincide exactly when the draws that produced them do: the
      name loses none of the randomness it is built from. */
  lemma RandomFileNameInjective(rand1: RandomSource, start1: nat, rand2: RandomSource, start2: nat)
    ensures RandomFileName(rand1, start1) == RandomFileName(rand2, start2)
        <==> Draws(rand1, start1) == Draws(rand2, start2)
  {
    var n1, n2 := RandomFileName(rand1, start1), RandomFileName(rand2, start2);
    var d1, d2 := Draws(rand1, start1), Draws(rand2, start2);
    if n1 == n2 {
      forall i | 0 <= i < FILENAME_LENGTH
        ensures d1[i] == d2[i]
      {
        assert IndexOfSymbol(n1[i]) == d1[i];
      }
    }
    if d1 == d2 {
      forall i | 0 <= i < FILENAME_LENGTH
        ensures n1[i] == n2[i]
      {
        assert d1[i] == rand1(start1 + i);
        IndexOfSymbolInjective(n1[i], n2[i]);
      }
    }
  }

  /** The source's accumulating loop: `result += chars[draw]`, eight times. */
  method GenerateRandomFileName(rand: RandomSource, start: nat) returns (result: string)
    ensures result == RandomFileName(rand, start)
  {
    AlphabetLayout();
    result := "";
    var i := 0;
    while i < FILENAME_LENGTH
      invariant 0 <= i <= FILENAME_LENGTH
      invariant |result| == i
      invariant forall j :: 0 <= j < i ==> result[j] == CHARS[rand(start + j)]
    {
      result := result + [CHARS[rand(start + i)]];
      i := i + 1;
    }
  }
}
