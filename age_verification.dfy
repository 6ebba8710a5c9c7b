/**
 * The age confirmation screen (client/src/components/AgeVerification.tsx):
 * a checkbox sets `agreed`, and the submit button records the confirmation
 * in `localStorage` and tells the parent, but only once `agreed` is set.
 */
module AgeVerification {
  import opened Common
  import opened Browser

  const AgeVerifiedKey: string := "age_verified"
  const AgeVerifiedValue: string := "true"

  class AgeForm {
    var agreed: bool

    /** The checkbox starts unchecked. */
    constructor ()
      ensures !agreed
    {
      agreed := false;
    }

    /** The button is disabled while the box is unchecked. */
    predicate SubmitEnabled()
      reads this
    {
      agreed
    }

    /** The checkbox's `onChange`: `agreed` takes the checked value, so unchecking clears it. */
    method SetAgreed(checked: bool)
      modifies this
      ensures agreed == checked
    {
      agreed := checked;
    }

    /**
     * `handleSubmit`: with `agreed`, stores `age_verified = 'true'` and then
     * calls `onVerify` (reported as `verified`); without it, writes nothing
     * and calls nothing.
     */
    method HandleSubmit(storage: LocalStorage) returns (verified: bool)
      modifies storage
      ensures verified == agreed
      ensures agreed ==> storage.items == old(storage.items)[AgeVerifiedKey := AgeVerifiedValue]
      ensures !agreed ==> storage.items == old(storage.items)
      ensures verified ==> storage.GetItem(AgeVerifiedKey) == Some(AgeVerifiedValue)
    {
      if agreed {
        storage.SetItem(AgeVerifiedKey, AgeVerifiedValue);
        verified := true;
      } else {
        verified := false;
      }
    }
  }

  /** Checking, unchecking and submitting leaves storage untouched and does not verify. */
  method UncheckedSubmitDoesNothing(form: AgeForm, storage: LocalStorage)
    modifies form, storage
    ensures !form.agreed && storage.items == old(storage.items)
  {
    form.SetAgreed(true);
    form.SetAgreed(false);
    var verified := form.HandleSubmit(storage);
    assert !verified;
  }
}
