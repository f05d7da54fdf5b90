/**
 A stream of words with a cursor. A word may be consumed in part; what is left
 of it is then read before the following words.
 */
module TokenStream {
  import opened Words

  class Stream {
    const tokens: seq<string>
    var pos: nat
    var partialToken: string

    ghost predicate Valid()
      reads this
    {
      pos <= |tokens|
    }

    // The words still to be read.
    function Remaining(): seq<string>
      requires Valid()
      reads this
    {
      if partialToken == "" then tokens[pos..]
      else [partialToken] + if pos < |tokens| then tokens[pos + 1..] else []
    }

    constructor (normalizedText: string)
      ensures Valid() && Remaining() == Fields(normalizedText)
    {
      tokens := Fields(normalizedText);
      pos := 0;
      partialToken := "";
    }

    predicate AtEnd()
      reads this
    {
      partialToken == "" && pos >= |tokens|
    }

    function Text(): (text: string)
      requires Valid()
      reads this
      ensures text == if Remaining() == [] then "" else Remaining()[0]
    {
      if partialToken != "" then partialToken
      else if pos >= |tokens| then ""
      else tokens[pos]
    }

    // Drops the word that Text() shows, whole or partial.
    method Advance() returns (more: bool)
      requires Valid()
      modifies this
      ensures Valid()
      ensures old(Remaining()) == [] ==> Remaining() == []
      ensures old(Remaining()) != [] ==> Remaining() == old(Remaining())[1..]
      ensures more == (Remaining() != [])
    {
      partialToken := "";
      if pos >= |tokens| {
        return false;
      }
      pos := pos + 1;
      more := pos < |tokens|;
    }

    // Leaves only `remaining` of the word that Text() shows.
    method SetPartialToken(remaining: string)
      requires Valid()
      modifies this
      ensures Valid() && partialToken == remaining && pos == old(pos)
      ensures remaining != "" && old(Remaining()) != [] ==> Remaining() == [remaining] + old(Remaining())[1..]
    {
      partialToken := remaining;
    }
  }
}
