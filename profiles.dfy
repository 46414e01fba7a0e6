/**
 * The account profiles the extension stores (bg/profiles.js, and the same
 * fallback in background.js, popup.js and options.js).
 */
module Profiles {

  import opened Base

  /**
   * A profile: a Google account slot `authIndex` with a label (`labelText`; `label` is a Dafny keyword), and what the
   * extension learnt about the signed-in account.
   */
  datatype Profile = Profile(
    id: string,
    labelText: string,
    authIndex: nat,
    name: Option<string>,
    email: Option<string>,
    photoUrl: Option<string>)

  /** `DEFAULT_PROFILES`: Work (index 0) and Personal (index 1). */
  function DefaultProfiles(): seq<Profile> {
    [Profile("work", "Work", 0, None, None, None), Profile("personal", "Personal", 1, None, None, None)]
  }

  /**
   * The profiles to use given what storage holds: the stored list when it is a
   * non-empty array (`Some`), else the defaults. `None` stands for a stored
   * value that is not an array (or is absent).
   */
  function ProfilesOrDefault(stored: Option<seq<Profile>>): (r: seq<Profile>)
    ensures stored.Some? && stored.value != [] ==> r == stored.value
    ensures stored.None? || stored.value == [] ==> r == DefaultProfiles()
    ensures r != []
  {
    if stored.Some? && |stored.value| > 0 then stored.value else DefaultProfiles()
  }

  /** The `authIndex` values of a list of profiles. */
  function AuthIndexes(ps: seq<Profile>): set<nat> {
    set k | 0 <= k < |ps| :: ps[k].authIndex
  }

  /** Some profile has this `authIndex` (`profiles.some(p => p.authIndex === idx)`). */
  predicate HasAuthIndex(ps: seq<Profile>, idx: nat) {
    exists k :: 0 <= k < |ps| && ps[k].authIndex == idx
  }

  /** `profiles.find(p => p.authIndex === idx)`, as the index of the first such profile. */
  function FindByAuthIndex(ps: seq<Profile>, idx: nat): (r: Option<nat>)
    ensures r.Some? ==> r.value < |ps| && ps[r.value].authIndex == idx
    ensures r.Some? ==> forall k :: 0 <= k < r.value ==> ps[k].authIndex != idx
    ensures r.None? <==> !HasAuthIndex(ps, idx)
    decreases |ps|
  {
    if ps == [] then None
    else if ps[0].authIndex == idx then Some(0)
    else match FindByAuthIndex(ps[1..], idx)
      case None => None
      case Some(k) => Some(k + 1)
  }
}
