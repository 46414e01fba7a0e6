/**
 * The popup's profile editing (popup.js): importing the signed-in accounts
 * reported by the background page, and adding the account of the current tab.
 * Its `buildUrl` and `parseAuthIndexFromUrl` are `UrlRewrite.BuildUrl` and
 * `UrlRewrite.ParseAuthIndexFromUrl`; `loadProfiles` is
 * `Profiles.ProfilesOrDefault`.
 */
module Popup {

  import opened Base
  import opened JsText
  import opened Url
  import opened UrlRewrite
  import opened Profiles

  /** An account in the `lm.fetchAccounts` reply: its email and label, either possibly missing. */
  datatype ImportedAccount = ImportedAccount(email: Option<string>, labelText: Option<string>)

  /** The reply: `ok`, and `accounts` when it is an array. */
  datatype ImportReply = ImportReply(ok: bool, accounts: Option<seq<ImportedAccount>>)

  /** What a click does to storage: nothing (an error is shown), or writes this list. */
  datatype Outcome = Rejected | Write(profiles: seq<Profile>)

  /** Account `i` of an import: label `email || label || "Account i"`, id the lower-cased `email || label || "acc-i"`. */
  function ImportedProfile(a: ImportedAccount, i: nat): (p: Profile)
    ensures p.authIndex == i && p.name.None? && p.email.None? && p.photoUrl.None?
    ensures p.labelText != "" && p.id != ""
    ensures Truthy(a.email) ==> p.labelText == a.email.value && p.id == AsciiLower(a.email.value)
    ensures !Truthy(a.email) && Truthy(a.labelText) ==> p.labelText == a.labelText.value && p.id == AsciiLower(a.labelText.value)
    ensures !Truthy(a.email) && !Truthy(a.labelText) ==> p.labelText == "Account " + Dec(i) && p.id == "acc-" + Dec(i)
  {
    var id := AsciiLower(FirstTruthy(a.email, a.labelText, "acc-" + Dec(i)));
    LowerIsIdentityOnAccId(i);
    Profile(id, FirstTruthy(a.email, a.labelText, "Account " + Dec(i)), i, None, None, None)
  }

  /** `"acc-" + i` has no upper-case letter, so lower-casing keeps it. */
  lemma LowerIsIdentityOnAccId(i: nat)
    ensures AsciiLower("acc-" + Dec(i)) == "acc-" + Dec(i)
  {
    var s := "acc-" + Dec(i);
    forall k | 0 <= k < |s| ensures LowerChar(s[k]) == s[k] {
      if k >= 4 {
        assert s[k] == Dec(i)[k - 4];
        assert IsDigit(Dec(i)[k - 4]);
      }
    }
  }

  /**
   * The import button: rejected without writing when there is no reply, the
   * reply is not `ok`, or it lists no accounts; otherwise account `i` becomes
   * the profile for index `i`.
   */
  function ImportProfiles(res: Option<ImportReply>): (r: Outcome)
    ensures r.Rejected? <==> res.None? || !res.value.ok || res.value.accounts.None? || res.value.accounts.value == []
    ensures r.Write? ==> |r.profiles| == |res.value.accounts.value|
    ensures r.Write? ==> forall i :: 0 <= i < |r.profiles| ==> r.profiles[i] == ImportedProfile(res.value.accounts.value[i], i)
  {
    if res.None? || !res.value.ok || res.value.accounts.None? || |res.value.accounts.value| == 0 then Rejected
    else
      var accounts := res.value.accounts.value;
      Write(seq(|accounts|, i requires 0 <= i < |accounts| => ImportedProfile(accounts[i], i)))
  }

  /** An import numbers the accounts `0 .. n-1`, one profile per index, and every id is already lower case. */
  lemma ImportIndexes(res: Option<ImportReply>)
    requires ImportProfiles(res).Write?
    ensures var ps := ImportProfiles(res).profiles;
      && (forall x: nat :: x in AuthIndexes(ps) <==> x < |ps|)
      && (forall i :: 0 <= i < |ps| ==> FindByAuthIndex(ps, i) == Some(i))
      && (forall i :: 0 <= i < |ps| ==> AsciiLower(ps[i].id) == ps[i].id)
  {
    var accounts := res.value.accounts.value;
    var ps := ImportProfiles(res).profiles;
    forall i | 0 <= i < |ps| ensures ps[i].authIndex == i && AsciiLower(ps[i].id) == ps[i].id {
      assert ps[i] == ImportedProfile(accounts[i], i);
      AsciiLowerTwice(FirstTruthy(accounts[i].email, accounts[i].labelText, "acc-" + Dec(i)));
    }
    NumberedIndexes(ps);
  }

  /** A list whose `k`-th profile has index `k` holds the indexes `0 .. n-1`, each found at its own position. */
  lemma NumberedIndexes(ps: seq<Profile>)
    requires forall k :: 0 <= k < |ps| ==> ps[k].authIndex == k
    ensures forall x: nat :: x in AuthIndexes(ps) <==> x < |ps|
    ensures forall i :: 0 <= i < |ps| ==> FindByAuthIndex(ps, i) == Some(i)
  {
    forall i | 0 <= i < |ps| ensures i in AuthIndexes(ps) && FindByAuthIndex(ps, i) == Some(i) {
      assert ps[i].authIndex == i;
      assert HasAuthIndex(ps, i);
    }
    forall x | x in AuthIndexes(ps) ensures x < |ps| {
      var k :| 0 <= k < |ps| && ps[k].authIndex == x;
    }
  }

  /** The profile `Add current` appends for index `idx`. */
  function CurrentAccount(idx: nat): Profile {
    Profile("acc-" + Dec(idx), "Account " + Dec(idx), idx, None, None, None)
  }

  /**
   * The `Add current` button: no write when the tab's URL names no numeric
   * account index; the stored list unchanged when that index is already
   * there; otherwise the list with the new account appended.
   */
  function AddCurrent(currentUrl: UrlText, stored: seq<Profile>): (r: Outcome)
    ensures r.Rejected? <==> !(ParseAuthIndexFromUrl(currentUrl).Some? && ParseAuthIndexFromUrl(currentUrl).value.Int?)
    ensures r.Write? ==>
              var idx := ParseAuthIndexFromUrl(currentUrl).value.value;
              && (HasAuthIndex(stored, idx) ==> r.profiles == stored)
              && (!HasAuthIndex(stored, idx) ==> r.profiles == stored + [CurrentAccount(idx)])
  {
    match ParseAuthIndexFromUrl(currentUrl)
    case Some(Int(idx)) =>
      if HasAuthIndex(stored, idx) then Write(stored) else Write(stored + [CurrentAccount(idx)])
    case _ => Rejected
  }

  /**
   * After `Add current` the index is present, nothing else is added, and a
   * second click on the same tab writes the same list again.
   */
  lemma AddCurrentSettles(currentUrl: UrlText, stored: seq<Profile>)
    requires AddCurrent(currentUrl, stored).Write?
    ensures var next := AddCurrent(currentUrl, stored).profiles;
      && AuthIndexes(next) == AuthIndexes(stored) + {ParseAuthIndexFromUrl(currentUrl).value.value}
      && AddCurrent(currentUrl, next) == Write(next)
  {
    var idx := ParseAuthIndexFromUrl(currentUrl).value.value;
    var next := AddCurrent(currentUrl, stored).profiles;
    if !HasAuthIndex(stored, idx) {
      assert next[|stored|].authIndex == idx;
      forall x | x in AuthIndexes(stored) ensures x in AuthIndexes(next) {
        var j :| 0 <= j < |stored| && stored[j].authIndex == x;
        assert next[j].authIndex == x;
      }
    } else {
      var j :| 0 <= j < |stored| && stored[j].authIndex == idx;
    }
  }
}
