/**
 * The profile and onboarding part of the settings slice: the display name,
 * the about text and the avatar the user sets, mirrored into their member
 * record, and the onboarding step. Every setter also writes the preferences.
 */
module SettingsSlices {
  import opened Wrappers
  import opened Text
  import opened Entities
  import opened SessionSlices

  const MaxDisplayNameLength: nat := 32
  const MaxAboutLength: nat := 190
  /** The prefix an accepted avatar data URL starts with. */
  const ImageDataPrefix: string := "data:image"
  const UnknownInitial: string := "?"

  /**
   * The persisted preferences this model covers (`UserPreferences` without the
   * theme, density, notification, keyboard, accessibility and font settings).
   */
  datatype Preferences = Preferences(
    onboardingCompleted: bool,
    profileDisplayName: string,
    profileAbout: string,
    profileAvatarDataUrl: Option<string>)

  /** The first onboarding step (`0`) unless the loaded preferences say onboarding is done. */
  function InitialOnboardingStep(loaded: Preferences): (r: Option<nat>)
    ensures r.None? <==> loaded.onboardingCompleted
    ensures r.Some? ==> r.value == 0
  {
    if loaded.onboardingCompleted then None else Some(0)
  }

  /** `value.trim().slice(0, 32)`. */
  function ProfileName(value: string): string
  {
    Take(TrimJs(value), MaxDisplayNameLength)
  }

  /** `value.trim().slice(0, 190)`. */
  function About(value: string): string
  {
    Take(TrimJs(value), MaxAboutLength)
  }

  /**
   * A stored name has at most 32 characters, starts the trimmed input, is the
   * whole trimmed input when that fits, and is empty exactly for a blank input.
   */
  lemma {:induction false} ProfileNameSpec(value: string)
    ensures var r := ProfileName(value);
      && |r| <= MaxDisplayNameLength
      && StartsWith(TrimJs(value), r)
      && (|TrimJs(value)| <= MaxDisplayNameLength ==> r == TrimJs(value))
      && (r == [] <==> IsBlankJs(value))
  {
  }

  /** The same for the about text, with 190 characters. */
  lemma {:induction false} AboutSpec(value: string)
    ensures var r := About(value);
      && |r| <= MaxAboutLength
      && StartsWith(TrimJs(value), r)
      && (|TrimJs(value)| <= MaxAboutLength ==> r == TrimJs(value))
      && (r == [] <==> IsBlankJs(value))
  {
  }

  /** Only a data URL of an image is kept as the avatar; anything else clears it. */
  function SanitizedAvatar(value: Option<string>): (r: Option<string>)
    ensures r.Some? <==> value.Some? && StartsWith(value.value, ImageDataPrefix)
    ensures r.Some? ==> r == value
  {
    if value.Some? && StartsWith(value.value, ImageDataPrefix) then value else None
  }

  /** `toDisplayName(override, fallback)`. */
  function DisplayName(override: string, fallback: string): string
  {
    var next := TrimJs(override);
    if next != [] then Take(next, MaxDisplayNameLength) else fallback
  }

  /** `getAvatarInitial(name)`: the first character upper-cased, or `"?"`. */
  function AvatarInitial(name: string): (r: string)
    ensures |r| == 1
    ensures name == [] ==> r == UnknownInitial
    ensures name != [] ==> r[0] == UpperChar(name[0])
  {
    if name == [] then UnknownInitial else [UpperChar(name[0])]
  }

  /** `applyProfileToUser(user, profileDisplayName, profileAvatarDataUrl)`. */
  function ApplyProfileToUser(user: User, profileDisplayName: string, profileAvatarDataUrl: Option<string>): User
  {
    var name := DisplayName(profileDisplayName, user.name);
    user.(name := name, avatar := AvatarInitial(name), avatarUrl := profileAvatarDataUrl)
  }

  /**
   * The profile replaces the name only when it is not blank, then as the
   * stored name; the avatar initial follows the name; the avatar URL is the
   * profile's; nothing else of the user changes.
   */
  lemma {:induction false} ApplyProfileToUserSpec(user: User, profileDisplayName: string, profileAvatarDataUrl: Option<string>)
    ensures var r := ApplyProfileToUser(user, profileDisplayName, profileAvatarDataUrl);
      && r.id == user.id && r.status == user.status && r.roles == user.roles && r.roleColor == user.roleColor
      && r.avatarUrl == profileAvatarDataUrl
      && (IsBlankJs(profileDisplayName) ==> r.name == user.name)
      && (!IsBlankJs(profileDisplayName) ==>
            r.name == ProfileName(profileDisplayName) && r.avatar == [UpperChar(TrimJs(profileDisplayName)[0])])
      && (r.name == [] ==> r.avatar == UnknownInitial)
  {
  }

  /** `applyProfileToUsers(users, meId, …)`: only the users with `meId` change. */
  function ApplyProfileToUsers(users: seq<User>, meId: string, profileDisplayName: string, profileAvatarDataUrl: Option<string>): (r: seq<User>)
    ensures |r| == |users|
    ensures forall i :: 0 <= i < |users| && users[i].id == meId ==> r[i] == ApplyProfileToUser(users[i], profileDisplayName, profileAvatarDataUrl)
    ensures forall i :: 0 <= i < |users| && users[i].id != meId ==> r[i] == users[i]
  {
    seq(|users|, i requires 0 <= i < |users| =>
      if users[i].id == meId then ApplyProfileToUser(users[i], profileDisplayName, profileAvatarDataUrl) else users[i])
  }

  class SettingsSlice {
    /** `null` once onboarding is complete. */
    var onboardingStep: Option<nat>
    var profileDisplayName: string
    var profileAbout: string
    var profileAvatarDataUrl: Option<string>
    /** The preferences last written by `savePreferences`. */
    var saved: Preferences

    /** `toPreferencesFromState(state)`. */
    function Current(): Preferences
      reads this
    {
      Preferences(onboardingStep.None?, profileDisplayName, profileAbout, profileAvatarDataUrl)
    }

    /** The slice as the loaded preferences set it up. */
    constructor (loaded: Preferences)
      ensures onboardingStep == InitialOnboardingStep(loaded)
      ensures profileDisplayName == loaded.profileDisplayName && profileAbout == loaded.profileAbout
      ensures profileAvatarDataUrl == loaded.profileAvatarDataUrl
      ensures saved == loaded
      ensures Current() == loaded
    {
      onboardingStep := InitialOnboardingStep(loaded);
      profileDisplayName := loaded.profileDisplayName;
      profileAbout := loaded.profileAbout;
      profileAvatarDataUrl := loaded.profileAvatarDataUrl;
      saved := loaded;
    }

    /**
     * Stores the trimmed name cut to 32 characters, saves it, and puts it on
     * the signed-in user and on their entry in the member list.
     */
    method SetProfileDisplayName(value: string, session: SessionSlice)
      modifies this, session
      ensures profileDisplayName == ProfileName(value)
      ensures saved == old(Current()).(profileDisplayName := ProfileName(value))
      ensures Current() == saved
      ensures onboardingStep == old(onboardingStep) && profileAbout == old(profileAbout)
      ensures profileAvatarDataUrl == old(profileAvatarDataUrl)
      ensures session.me == ApplyProfileToUser(old(session.me), ProfileName(value), old(profileAvatarDataUrl))
      ensures session.users == ApplyProfileToUsers(old(session.users), old(session.me).id, ProfileName(value), old(profileAvatarDataUrl))
    {
      var trimmed := ProfileName(value);
      saved := Current().(profileDisplayName := trimmed);
      var nextMe := ApplyProfileToUser(session.me, trimmed, profileAvatarDataUrl);
      profileDisplayName := trimmed;
      session.SetState(SessionState(nextMe, ApplyProfileToUsers(session.users, nextMe.id, trimmed, profileAvatarDataUrl)));
    }

    /** Stores and saves the trimmed about text cut to 190 characters. */
    method SetProfileAbout(value: string)
      modifies this
      ensures profileAbout == About(value)
      ensures saved == old(Current()).(profileAbout := About(value))
      ensures Current() == saved
      ensures onboardingStep == old(onboardingStep) && profileDisplayName == old(profileDisplayName)
      ensures profileAvatarDataUrl == old(profileAvatarDataUrl)
    {
      var trimmed := About(value);
      saved := Current().(profileAbout := trimmed);
      profileAbout := trimmed;
    }

    /**
     * Keeps the avatar only when it is an image data URL, saves it, and puts it
     * on the signed-in user and their member entry.
     */
    method SetProfileAvatarDataUrl(value: Option<string>, session: SessionSlice)
      modifies this, session
      ensures profileAvatarDataUrl == SanitizedAvatar(value)
      ensures saved == old(Current()).(profileAvatarDataUrl := SanitizedAvatar(value))
      ensures Current() == saved
      ensures onboardingStep == old(onboardingStep) && profileDisplayName == old(profileDisplayName)
      ensures profileAbout == old(profileAbout)
      ensures session.me == ApplyProfileToUser(old(session.me), old(profileDisplayName), SanitizedAvatar(value))
      ensures session.users == ApplyProfileToUsers(old(session.users), old(session.me).id, old(profileDisplayName), SanitizedAvatar(value))
      ensures session.me.avatarUrl == SanitizedAvatar(value)
    {
      var sanitized := SanitizedAvatar(value);
      saved := Current().(profileAvatarDataUrl := sanitized);
      var nextMe := ApplyProfileToUser(session.me, profileDisplayName, sanitized);
      profileAvatarDataUrl := sanitized;
      session.SetState(SessionState(nextMe, ApplyProfileToUsers(session.users, nextMe.id, profileDisplayName, sanitized)));
    }

    /** Ends onboarding and saves that, so a reload starts without onboarding. */
    method CompleteOnboarding()
      modifies this
      ensures onboardingStep.None?
      ensures saved == old(Current()).(onboardingCompleted := true)
      ensures InitialOnboardingStep(saved).None?
      ensures profileDisplayName == old(profileDisplayName) && profileAbout == old(profileAbout)
      ensures profileAvatarDataUrl == old(profileAvatarDataUrl)
    {
      saved := Current().(onboardingCompleted := true);
      onboardingStep := None;
    }
  }

  /** Whatever the slice holds, reloading what it saves gives back the same onboarding step when it is `null` or `0`. */
  lemma {:induction false} ReloadKeepsOnboarding(step: Option<nat>, name: string, about: string, avatar: Option<string>)
    requires step.None? || step == Some(0)
    ensures InitialOnboardingStep(Preferences(step.None?, name, about, avatar)) == step
  {
  }
}
