/** The first-login dialog: it asks a signed-in user without a profile for a name,
    and saves the trimmed name as the profile. */
module UserProfileSetup {
  import Text
  import opened Wrappers
  import opened Backend

  /** What the profile query holds: nothing yet (undefined), the API's null
      (no profile), or a profile. */
  datatype ProfileData = Undefined | Null | Present(profile: UserProfile)

  /** showProfileSetup: signed in, the profile query done loading and fetched, and
      its data strictly null. */
  function ShowProfileSetup(isAuthenticated: bool, profileLoading: bool, isFetched: bool,
                            userProfile: ProfileData): (r: bool)
    ensures r <==> isAuthenticated && !profileLoading && isFetched && userProfile == Null
  {
    isAuthenticated && !profileLoading && isFetched && userProfile.Null?
  }

  /** A profile that is not loaded yet never opens the dialog, whatever the flags
      say; neither does an existing one. The API's null does, once the signed-in
      user's query is done and fetched. */
  lemma OnlyNullProfileShows(isAuthenticated: bool, profileLoading: bool, isFetched: bool, p: UserProfile)
    ensures !ShowProfileSetup(isAuthenticated, profileLoading, isFetched, Undefined)
    ensures !ShowProfileSetup(isAuthenticated, profileLoading, isFetched, Present(p))
    ensures ShowProfileSetup(isAuthenticated, profileLoading, isFetched, Null)
      <==> isAuthenticated && !profileLoading && isFetched
  {
  }

  /** The profile handleSave sends for the typed name: none when the name is
      blank, otherwise the trimmed name, which is not empty and has no white space
      at either end. */
  function SaveRequest(name: string): (r: Option<UserProfile>)
    ensures r.None? <==> Text.IsBlank(name)
    ensures r.Some? ==> r.value.name == Text.Trim(name) && r.value.name != []
    ensures r.Some? ==> !Text.IsWhiteSpace(r.value.name[0]) && !Text.IsWhiteSpace(r.value.name[|r.value.name| - 1])
  {
    Text.TrimEmptyIffBlank(name);
    Text.TrimIsInnerSlice(name);
    var trimmed := Text.Trim(name);
    if trimmed == [] then None else Some(UserProfile(trimmed))
  }

  /** Typing the saved name again would save the same profile. */
  lemma SaveRequestStable(name: string)
    requires SaveRequest(name).Some?
    ensures SaveRequest(SaveRequest(name).value.name) == SaveRequest(name)
  {
    Text.TrimIdempotent(name);
    Text.TrimEmptyIffBlank(Text.Trim(name));
  }

  /** The dialog's state: the name field and the save calls made. */
  class ProfileSetup {
    var name: string
    /** The saveCallerUserProfile calls made so far. */
    var saveCalls: seq<UserProfile>

    /** The name field starts empty, and nothing has been saved. */
    constructor ()
      ensures name == "" && saveCalls == []
    {
      name := "";
      saveCalls := [];
    }

    /** The input's onChange. */
    method SetName(typed: string)
      modifies this`name
      ensures name == typed
    {
      name := typed;
    }

    /** handleSave: a blank name only raises a toast; otherwise one save call with
        the trimmed name. */
    method HandleSave()
      modifies this`saveCalls
      ensures Text.IsBlank(name) ==> saveCalls == old(saveCalls)
      ensures !Text.IsBlank(name) ==> saveCalls == old(saveCalls) + [UserProfile(Text.Trim(name))]
    {
      var request := SaveRequest(name);
      if request.Some? {
        saveCalls := saveCalls + [request.value];
      }
    }

    /** The input's onKeyDown: Enter saves exactly as the button does; other keys
        do nothing. */
    method OnKeyDown(key: string)
      modifies this`saveCalls
      ensures key == "Enter" && Text.IsBlank(name) ==> saveCalls == old(saveCalls)
      ensures key == "Enter" && !Text.IsBlank(name) ==> saveCalls == old(saveCalls) + [UserProfile(Text.Trim(name))]
      ensures key != "Enter" ==> saveCalls == old(saveCalls)
    {
      if key == "Enter" {
        HandleSave();
      }
    }
  }
}
