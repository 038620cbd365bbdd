/** Saving the customer's profile, `editProfile` of
    src/app/user/profile/profile.page.ts: the phone-number check and the
    fields written. The signed-in user and the outcome of `updateDoc` are
    inputs; the alerts are returned. */
module ProfilePage {
  import opened Wrappers
  import Text

  /** The edited `userProfile`; a field is `None` when it is missing. */
  datatype Profile = Profile(name: Option<string>, email: Option<string>, phonenumber: Option<string>)

  /** The update sent to `users/<uid>`: the name and the phone number only. */
  datatype ProfileUpdate = ProfileUpdate(uid: string, name: Option<string>, phonenumber: Option<string>)

  datatype Alert = Alert(header: string, message: string)

  const InvalidPhone := Alert("Invalid Phone Number", "Please enter a valid phone number (10-13 digits)")
  const Saved := Alert("Success", "Profile updated successfully")
  const SaveFailed := Alert("Error", "Failed to update profile")

  /** `/^\d{10,13}$/.test(s)`: ten to thirteen ASCII digits and nothing else
      (`$` without the `m` flag matches only at the very end). */
  predicate IsValidPhone(s: string) {
    10 <= |s| <= 13 && Text.AllDigits(s)
  }

  /** The phone number is checked only when it is truthy. */
  predicate PhonePasses(phone: Option<string>) {
    phone.None? || phone.value == [] || IsValidPhone(phone.value)
  }

  /** `editProfile`. `user` is the uid of `auth.currentUser`, if any. With no
      user nothing happens; a truthy phone number that is not 10-13 digits
      gives the warning and no write; otherwise the name and phone number
      are written and the alert reports the write's outcome. */
  method EditProfile(profile: Profile, user: Option<string>, writeSucceeds: bool)
    returns (update: Option<ProfileUpdate>, alert: Option<Alert>)
    ensures user.None? ==> update.None? && alert.None?
    ensures user.Some? && !PhonePasses(profile.phonenumber) ==> update.None? && alert == Some(InvalidPhone)
    ensures user.Some? && PhonePasses(profile.phonenumber) ==>
      update == Some(ProfileUpdate(user.value, profile.name, profile.phonenumber))
      && alert == Some(if writeSucceeds then Saved else SaveFailed)
  {
    if user.None? {
      return None, None;
    }
    var phone := profile.phonenumber;
    if phone.Some? && phone.value != [] && !IsValidPhone(phone.value) {
      return None, Some(InvalidPhone);
    }
    update := Some(ProfileUpdate(user.value, profile.name, phone));
    alert := if writeSucceeds then Some(Saved) else Some(SaveFailed);
  }
}
