/** The trait scan of `loadJSON` and the threat level derived from it. The
    HTTP fetch of the token metadata is not modelled: the scan starts from the
    `attributes` list the fetch produced, or from `None` when the fetch failed
    or the document had no `attributes` (both end in the `catch`, which makes
    `loadJSON` resolve to `undefined`). */
module Traits {
  import opened Wrappers

  datatype Trait = Trait(traitType: string, value: string)

  datatype Background = White | Wanted {
    function Label(): string {
      match this
      case White => "White"
      case Wanted => "Wanted"
    }
  }

  predicate IsWantedTrait(t: Trait) {
    t.traitType == "Background" && t.value == "Wanted"
  }

  predicate AnyWanted(traits: seq<Trait>) {
    exists i :: 0 <= i < |traits| && IsWantedTrait(traits[i])
  }

  /** `loadJSON` after its fetch: start at White and switch to Wanted whenever
      a trait is the Wanted background, scanning the whole list. */
  method LoadBackground(attributes: Option<seq<Trait>>) returns (bg: Option<Background>)
    ensures bg.None? <==> attributes.None?
    ensures bg == Some(Wanted) <==> attributes.Some? && AnyWanted(attributes.value)
    ensures bg == Some(White) <==> attributes.Some? && !AnyWanted(attributes.value)
    ensures attributes == Some([]) ==> bg == Some(White)
  {
    if attributes.None? {
      return None;
    }
    var traits := attributes.value;
    var returnThis := White;
    var i := 0;
    while i < |traits|
      invariant 0 <= i <= |traits|
      invariant returnThis == Wanted <==> exists j :: 0 <= j < i && IsWantedTrait(traits[j])
    {
      if IsWantedTrait(traits[i]) {
        returnThis := Wanted;
      }
      i := i + 1;
    }
    return Some(returnThis);
  }

  const MostWanted := "Most Wanted"
  const Moderate := "Moderate"

  /** The threat level compares the resolved background with the text
      `'Wanted'`; an `undefined` background (failed fetch) is Moderate. */
  function ThreatLevel(background: Option<Background>): (r: string)
    ensures r == MostWanted <==> background == Some(Wanted)
    ensures r == Moderate <==> background != Some(Wanted)
  {
    if background.Some? && background.value.Label() == "Wanted" then MostWanted else Moderate
  }
}
