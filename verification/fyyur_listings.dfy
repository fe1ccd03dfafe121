/**
 * The venue and artist create and edit submissions of the booking site: the row written
 * from the form and the message flashed afterwards.
 */
module FyyurListings {
  import opened Wrappers
  import opened Text
  import opened FyyurForm

  datatype Kind = VenueKind | ArtistKind {
    /** The word the flash messages use for the kind. */
    function Label(): string {
      match this
      case VenueKind => "Venue"
      case ArtistKind => "Artist"
    }
  }

  datatype Action = Listed | Updated {
    function Word(): string {
      match this
      case Listed => "listed"
      case Updated => "updated"
    }
  }

  /** A venue or artist row as a submission writes it; only venues have an address. */
  datatype Listing = Listing(
    name: string, city: string, state: string, phone: string, address: Option<string>,
    genres: seq<string>, facebookLink: string, seeking: bool, seekingDescription: string,
    imageLink: string, homepageLink: string)

  /** The fields a submission reads with `request.form[...]`, each raising when absent. */
  function RequiredFields(kind: Kind): seq<string> {
    ["name", "city", "state", "phone"]
    + (if kind == VenueKind then ["address"] else [])
    + ["facebook_link", "seeking_description", "image_link", "homepage_link"]
  }

  /** The required fields spelled out, in the order the handlers read them. */
  lemma RequiredFieldsSpelled(kind: Kind)
    ensures kind == VenueKind ==>
      RequiredFields(kind)
      == ["name", "city", "state", "phone", "address", "facebook_link", "seeking_description", "image_link", "homepage_link"]
    ensures kind == ArtistKind ==>
      RequiredFields(kind)
      == ["name", "city", "state", "phone", "facebook_link", "seeking_description", "image_link", "homepage_link"]
  {
  }

  /** `request.form[f]` for each field `f` in turn; `None` as soon as one is missing. */
  function ReadAll(form: Form, fields: seq<string>): (r: Option<seq<string>>)
    ensures r.Some? <==> forall i :: 0 <= i < |fields| ==> HasKey(form, fields[i])
    ensures r.Some? ==> |r.value| == |fields|
                        && forall i :: 0 <= i < |fields| ==> Lookup(form, fields[i]) == Some(r.value[i])
  {
    if |fields| == 0 then Some([])
    else
      match (Lookup(form, fields[0]), ReadAll(form, fields[1..]))
      case (Some(v), Some(vs)) => Some([v] + vs)
      case _ => None
  }

  /**
   * The row a submission assigns field by field. `None` when a required field is missing
   * (the `KeyError` that sends the handler to its error path). `genres` and `seeking` never
   * raise: the first takes every submitted value, the second whether the field was sent.
   */
  function ListingFromForm(kind: Kind, form: Form): (r: Option<Listing>)
    ensures r.Some? <==> forall i :: 0 <= i < |RequiredFields(kind)| ==> HasKey(form, RequiredFields(kind)[i])
    ensures r.Some? ==>
      && Lookup(form, "name") == Some(r.value.name)
      && Lookup(form, "city") == Some(r.value.city)
      && Lookup(form, "state") == Some(r.value.state)
      && Lookup(form, "phone") == Some(r.value.phone)
      && (kind == VenueKind <==> r.value.address.Some?)
      && (kind == VenueKind ==> Lookup(form, "address") == r.value.address)
      && r.value.genres == GetList(form, "genres")
      && Lookup(form, "facebook_link") == Some(r.value.facebookLink)
      && r.value.seeking == Seeking(form)
      && Lookup(form, "seeking_description") == Some(r.value.seekingDescription)
      && Lookup(form, "image_link") == Some(r.value.imageLink)
      && Lookup(form, "homepage_link") == Some(r.value.homepageLink)
  {
    var fields := RequiredFields(kind);
    if ReadAll(form, fields).None? then None
    else
      RequiredFieldsSpelled(kind);
      assert HasKey(form, fields[0]) && HasKey(form, fields[1]) && HasKey(form, fields[2]) && HasKey(form, fields[3]);
      assert HasKey(form, fields[|fields| - 4]) && HasKey(form, fields[|fields| - 3]);
      assert HasKey(form, fields[|fields| - 2]) && HasKey(form, fields[|fields| - 1]);
      assert kind == VenueKind ==> HasKey(form, fields[4]);
      Some(Listing(
        Lookup(form, "name").value, Lookup(form, "city").value, Lookup(form, "state").value,
        Lookup(form, "phone").value, if kind == VenueKind then Lookup(form, "address") else None,
        GetList(form, "genres"), Lookup(form, "facebook_link").value, Seeking(form),
        Lookup(form, "seeking_description").value, Lookup(form, "image_link").value,
        Lookup(form, "homepage_link").value))
  }

  const ErrorOpening := "An error occurred. "

  /** The text before the name in a success message. */
  function SuccessPrefix(kind: Kind): string {
    kind.Label() + " "
  }

  function SuccessSuffix(action: Action): string {
    " was successfully " + action.Word() + "!"
  }

  /** The text before the name in an error message. */
  function ErrorPrefix(kind: Kind): string {
    ErrorOpening + kind.Label() + " "
  }

  function ErrorSuffix(action: Action): string {
    " could not be " + action.Word() + "."
  }

  /**
   * The message flashed after a submission: `'<Kind> <name> was successfully <action>!'`,
   * or on error `'An error occurred. <Kind> <name> could not be <action>.'`.
   */
  function ListingFlash(kind: Kind, name: string, action: Action, error: bool): (msg: string)
    ensures !error ==> StartsWith(msg, kind.Label() + " " + name)
    ensures error ==> StartsWith(msg, ErrorOpening)
  {
    if !error then SuccessPrefix(kind) + name + SuccessSuffix(action)
    else ErrorPrefix(kind) + name + ErrorSuffix(action)
  }

  /** The text between a known prefix and suffix, when `msg` has both. */
  function Between(msg: string, prefix: string, suffix: string): Option<string> {
    if |prefix| + |suffix| <= |msg| && StartsWith(msg, prefix) && EndsWith(msg, suffix) then
      Some(msg[|prefix|..|msg| - |suffix|])
    else None
  }

  lemma BetweenConcat(prefix: string, middle: string, suffix: string)
    ensures Between(prefix + middle + suffix, prefix, suffix) == Some(middle)
  {
    ConcatSlices(prefix, middle, suffix);
  }

  /** Reads a flash message back: the name it embeds and whether it reports an error. */
  function ReadListingFlash(kind: Kind, action: Action, msg: string): Option<(string, bool)> {
    match Between(msg, ErrorPrefix(kind), ErrorSuffix(action))
    case Some(name) => Some((name, true))
    case None =>
      match Between(msg, SuccessPrefix(kind), SuccessSuffix(action))
      case Some(name) => Some((name, false))
      case None => None
  }

  /**
   * A flash message determines the name it was built from and whether it reports an
   * error: no success message can be read as an error message.
   */
  lemma ListingFlashReadsBack(kind: Kind, name: string, action: Action, error: bool)
    ensures ReadListingFlash(kind, action, ListingFlash(kind, name, action, error)) == Some((name, error))
  {
    var msg := ListingFlash(kind, name, action, error);
    if error {
      BetweenConcat(ErrorPrefix(kind), name, ErrorSuffix(action));
    } else {
      BetweenConcat(SuccessPrefix(kind), name, SuccessSuffix(action));
      assert msg[1] == SuccessPrefix(kind)[1] != ErrorPrefix(kind)[1];
      assert Between(msg, ErrorPrefix(kind), ErrorSuffix(action)).None?;
    }
  }

  /**
   * The page a submission ends on: the flashed message and the row written when the
   * write went through, or a 400 when the form has no `name`, which the handler's
   * `finally` block reads again to build the message.
   */
  datatype Submission = Flashed(message: string, written: Option<Listing>) | MissingName

  /**
   * `create_venue_submission` and `create_artist_submission` (action `Listed`), and
   * `edit_venue_submission` and `edit_artist_submission` (action `Updated`, where `found`
   * says whether the row to edit exists: assigning to a missing one raises). The write
   * goes through exactly when the row exists, every required field is present and the
   * store does not fail; the message names the submitted name and reports an error
   * otherwise.
   */
  function Submit(kind: Kind, action: Action, form: Form, found: bool, storeFails: bool): (r: Submission)
    requires action == Listed ==> found
    ensures r == MissingName <==> !HasKey(form, "name")
    ensures r.Flashed? ==>
      && (r.written.Some? <==> found && !storeFails && ListingFromForm(kind, form).Some?)
      && ReadListingFlash(kind, action, r.message) == Some((Lookup(form, "name").value, r.written.None?))
    ensures r.Flashed? && r.written.Some? ==>
      && r.written == ListingFromForm(kind, form)
      && r.written.value.seeking == Seeking(form)
  {
    var row := ListingFromForm(kind, form);
    var error := !found || storeFails || row.None?;
    match Lookup(form, "name")
    case None => MissingName
    case Some(name) =>
      var msg := ListingFlash(kind, name, action, error);
      ListingFlashReadsBack(kind, name, action, error);
      Flashed(msg, if error then None else row)
  }

  /** The two messages of a venue creation, spelled out. */
  lemma VenueListedTexts(name: string)
    ensures ListingFlash(VenueKind, name, Listed, false) == "Venue " + name + " was successfully listed!"
    ensures ListingFlash(VenueKind, name, Listed, true) == "An error occurred. Venue " + name + " could not be listed."
  {
    assert SuccessPrefix(VenueKind) == "Venue ";
    assert SuccessSuffix(Listed) == " was successfully listed!";
    assert ErrorPrefix(VenueKind) == "An error occurred. Venue ";
    assert ErrorSuffix(Listed) == " could not be listed.";
  }

  /** A new venue without a `seeking` field is written with the flag off, with one it is on. */
  lemma CreateVenueSeeking(form: Form)
    ensures ListingFromForm(VenueKind, form).Some? ==>
      (Submit(VenueKind, Listed, form, true, false).written.value.seeking
       <==> exists i :: 0 <= i < |form| && form[i].0 == "seeking")
  {
  }

  /**
   * With no error, a new venue named `n` is announced as `'Venue n was successfully listed!'`
   * and written; with a failing store the error text is flashed and nothing is written.
   */
  lemma CreateVenueMessage(form: Form, name: string)
    ensures ListingFromForm(VenueKind, form).Some? && Lookup(form, "name") == Some(name) ==>
      Submit(VenueKind, Listed, form, true, false) ==
      Flashed("Venue " + name + " was successfully listed!", ListingFromForm(VenueKind, form))
    ensures Lookup(form, "name") == Some(name) ==>
      Submit(VenueKind, Listed, form, true, true) ==
      Flashed("An error occurred. Venue " + name + " could not be listed.", None)
  {
    VenueListedTexts(name);
  }
}
