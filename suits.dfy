// The suit shown on the shuffle card (`suits`, `suitIndex`, `cycleSuit`).

module Suits {
  import opened Sections

  /** The four suits the shuffle card cycles through, in order. */
  const Symbols: seq<char> := ['♣', '♥', '♦', '♠']

  /** `cycleSuit`'s update: `(suitIndex + 1) % suits.length`. */
  function NextSuit(i: int): (r: int)
    ensures 0 <= i ==> 0 <= r < |Symbols| && r == (i + 1) % |Symbols|
  {
    JsRem(i + 1, |Symbols|)
  }

  /** The suit index after the shuffle's reset to 0 and `ticks` ticks of `cycleSuit`. */
  function SuitAfterTicks(ticks: nat): int
  {
    if ticks == 0 then 0 else NextSuit(SuitAfterTicks(ticks - 1))
  }

  /** After the reset, the card shows the suit `ticks` places on, cyclically:
      every fourth tick it is back at clubs. */
  lemma {:induction false} SuitAfterTicksCycles(ticks: nat)
    ensures SuitAfterTicks(ticks) == ticks % |Symbols|
  {
    if ticks > 0 {
      SuitAfterTicksCycles(ticks - 1);
    }
  }
}
