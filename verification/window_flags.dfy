/** The change mask of an `AppWindow`: five single-bit flags in a `uint8_t`,
    set and cleared one at a time. */
module Flags {

  type Mask = bv8

  const DimensionChanged: Mask  := 0x01
  const FullscreenChanged: Mask := 0x02
  const FrameRateChanged: Mask  := 0x04
  const VSyncChanged: Mask      := 0x08
  const TitleChanged: Mask      := 0x10

  /** Every flag the window uses. */
  const AllFlags: seq<Mask> :=
    [DimensionChanged, FullscreenChanged, FrameRateChanged, VSyncChanged, TitleChanged]

  /** Exactly one bit of `f` is set. */
  predicate SingleBit(f: Mask)
  {
    f != 0 && f & (f - 1) == 0
  }

  /** The five flags are single bits and pairwise disjoint. */
  lemma FlagsAreDistinctBits()
    ensures forall i :: 0 <= i < |AllFlags| ==> SingleBit(AllFlags[i])
    ensures forall i, j :: 0 <= i < |AllFlags| && 0 <= j < |AllFlags| && i != j ==>
      AllFlags[i] & AllFlags[j] == 0
  {
  }

  /** `isFlagEnabled`: some bit of `flag` is set in the mask. */
  predicate IsFlagEnabled(mask: Mask, flag: Mask)
  {
    mask & flag != 0
  }

  /** `iSetFlag`: set (or clear) the bits of `flag`; every other bit keeps
      its value. */
  function SetFlag(mask: Mask, flag: Mask, enabled: bool): (r: Mask)
    ensures r & flag == (if enabled then flag else 0)
    ensures r & !flag == mask & !flag
  {
    if enabled then mask | flag else mask & !flag
  }

  /** For single-bit flags: `SetFlag` decides its own flag and leaves every
      other flag's state as it was. */
  lemma SetFlagTouchesOnlyItsFlag(mask: Mask, f: Mask, g: Mask, enabled: bool)
    requires SingleBit(f) && SingleBit(g)
    ensures IsFlagEnabled(SetFlag(mask, f, enabled), f) == enabled
    ensures f != g ==> IsFlagEnabled(SetFlag(mask, f, enabled), g) == IsFlagEnabled(mask, g)
  {
  }

  /** Raising a flag never clears another, and clearing one never raises
      another. */
  lemma SetFlagIsMonotone(mask: Mask, f: Mask, g: Mask)
    ensures IsFlagEnabled(mask, g) ==> IsFlagEnabled(SetFlag(mask, f, true), g)
    ensures IsFlagEnabled(SetFlag(mask, f, false), g) ==> IsFlagEnabled(mask, g)
    ensures f != 0 ==> IsFlagEnabled(SetFlag(mask, f, true), f)
    ensures !IsFlagEnabled(SetFlag(mask, f, false), f)
  {
  }

  /** Clearing a flag leaves no other flag newly set. */
  lemma ClearingKeepsOthers(mask: Mask, f: Mask)
    ensures forall g :: IsFlagEnabled(SetFlag(mask, f, false), g) ==> IsFlagEnabled(mask, g)
  {
    forall g | IsFlagEnabled(SetFlag(mask, f, false), g) ensures IsFlagEnabled(mask, g) {
      SetFlagIsMonotone(mask, f, g);
    }
  }
}
