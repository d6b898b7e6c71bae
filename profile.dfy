/** The profile settings page (`Profile`): the display-name rule and the save
    handler, which updates the profile, logs the change and reloads the
    profile. The three remote calls are represented by their outcome. */
module Profile {
  import opened Text

  const RequiredMessage: string := "Display name is required"
  const TooLongMessage: string := "Display name is too long"
  const MaxDisplayName: nat := 100

  datatype Validation = Valid(name: string) | Invalid(message: string)

  /** `profileSchema.safeParse`: trim, then at least 1 and at most 100
      characters, each bound with its own message. */
  function ValidateDisplayName(displayName: string): (r: Validation)
    ensures r.Valid? <==> 1 <= |Trim(displayName)| <= MaxDisplayName
    ensures r.Valid? ==> r.name == Trim(displayName)
    ensures r == Invalid(RequiredMessage) <==> Trim(displayName) == []
    ensures r == Invalid(TooLongMessage) <==> |Trim(displayName)| > MaxDisplayName
  {
    var t := Trim(displayName);
    if |t| < 1 then Invalid(RequiredMessage)
    else if |t| > MaxDisplayName then Invalid(TooLongMessage)
    else Valid(t)
  }

  /** The name that passes is trimmed already, so validating it again accepts
      it unchanged; surrounding whitespace never decides the outcome. */
  lemma ValidationIsStable(displayName: string)
    ensures ValidateDisplayName(Trim(displayName)) == ValidateDisplayName(displayName)
    ensures ValidateDisplayName(displayName).Valid? ==>
      ValidateDisplayName(ValidateDisplayName(displayName).name) == ValidateDisplayName(displayName)
  {
    TrimIdempotent(displayName);
  }

  /** The profile update `handleSave` sends. */
  datatype ProfileUpdate = ProfileUpdate(userId: Option<string>, displayName: string)

  /** The activity-log row `handleSave` inserts. */
  datatype LogInsert = LogInsert(userId: Option<string>, action: string, entityType: string,
                                 entityId: Option<string>, displayName: string)

  datatype SaveOutcome = Rejected(message: string) | Saved | Failed

  class ProfilePage {
    var displayName: string
    var isSaving: bool

    /** The field starts as the profile's display name, or empty. */
    constructor (profileName: Option<string>)
      ensures displayName == OrElse(profileName, "") && !isSaving
    {
      displayName := OrElse(profileName, "");
      isSaving := false;
    }

    /** `handleSave` for the user `userId`. `updateFailed` is the outcome of the
        profile update and `refreshFailed` that of reloading the profile; the
        log insert is sent without looking at its result. A rejected name sends
        nothing and leaves `isSaving` alone; otherwise the update (and, when it
        succeeds, the log row) carry the trimmed name, and `isSaving` is false
        at the end. */
    method Save(userId: Option<string>, updateFailed: bool, refreshFailed: bool)
      returns (outcome: SaveOutcome, update: Option<ProfileUpdate>, log: Option<LogInsert>)
      modifies this
      ensures ValidateDisplayName(displayName).Invalid? ==>
        outcome == Rejected(ValidateDisplayName(displayName).message) &&
        update.None? && log.None? && isSaving == old(isSaving)
      ensures ValidateDisplayName(displayName).Valid? ==>
        !isSaving &&
        update == Some(ProfileUpdate(userId, Trim(displayName))) &&
        (updateFailed ==> log.None? && outcome == Failed) &&
        (!updateFailed ==> log == Some(LogInsert(userId, "profile_update", "profile", userId, Trim(displayName)))) &&
        (!updateFailed && refreshFailed ==> outcome == Failed) &&
        (!updateFailed && !refreshFailed ==> outcome == Saved)
      ensures displayName == old(displayName)
    {
      var validation := ValidateDisplayName(displayName);
      if validation.Invalid? {
        return Rejected(validation.message), None, None;
      }
      isSaving := true;
      update := Some(ProfileUpdate(userId, Trim(displayName)));
      log := None;
      if updateFailed {
        outcome := Failed;
      } else {
        log := Some(LogInsert(userId, "profile_update", "profile", userId, Trim(displayName)));
        outcome := if refreshFailed then Failed else Saved;
      }
      isSaving := false;
    }
  }
}
