/** The message `create_show_submission` flashes, and the facts that decide it. */
module FyyurShows {
  import opened Wrappers
  import opened Text
  import opened FyyurForm

  const ShowListed := "Show was successfully listed!"
  const ErrorOpening := "An error occured. "
  const VenueMissing := "The Venue Id doesn't exist! "
  const ArtistMissing := "The Artist Id doesn't exist! "
  const ErrorClosing := "Your show could not be listed."

  /** The sentences between the opening and the closing of an error message. */
  function Middle(venueNotFound: bool, artistNotFound: bool): string {
    (if venueNotFound then VenueMissing else "") + (if artistNotFound then ArtistMissing else "")
  }

  /**
   * The flashed text: the success sentence exactly when nothing went wrong; otherwise the
   * error opening, the venue sentence if the venue was not found, the artist sentence if
   * the artist was not found (venue first), and the closing sentence.
   */
  function ShowFlash(error: bool, venueNotFound: bool, artistNotFound: bool): (msg: string)
    ensures msg == ShowListed <==> !error && !venueNotFound && !artistNotFound
    ensures msg != ShowListed ==> StartsWith(msg, ErrorOpening) && EndsWith(msg, ErrorClosing)
    ensures venueNotFound && artistNotFound ==>
      OccursAt(VenueMissing, msg, |ErrorOpening|)
      && OccursAt(ArtistMissing, msg, |ErrorOpening| + |VenueMissing|)
  {
    if !error && !venueNotFound && !artistNotFound then ShowListed
    else
      var msg := ErrorOpening + Middle(venueNotFound, artistNotFound) + ErrorClosing;
      Framed(ErrorOpening, Middle(venueNotFound, artistNotFound), ErrorClosing);
      SentenceLengths();
      if venueNotFound && artistNotFound then
        FramedPair(ErrorOpening, VenueMissing, ArtistMissing, ErrorClosing);
        msg
      else msg
  }

  /** A failure with both ids found is the opening followed directly by the closing sentence. */
  lemma PlainFailureText()
    ensures ShowFlash(true, false, false) == ErrorOpening + ErrorClosing
  {
    assert ErrorOpening + "" == ErrorOpening;
  }

  /** The lengths of the sentences, which tell them apart. */
  lemma SentenceLengths()
    ensures |ShowListed| == 29 && |ErrorOpening| == 18 && |ErrorClosing| == 30
    ensures |VenueMissing| == 28 && |ArtistMissing| == 29
  {
  }

  /** What a show message reports: success, and which of the two ids was not found. */
  datatype ShowReport = ShowReport(listed: bool, venueNotFound: bool, artistNotFound: bool)

  /** Reads a show message back; `None` for a text `ShowFlash` never produces. */
  function ReadShowFlash(msg: string): Option<ShowReport> {
    if msg == ShowListed then Some(ShowReport(true, false, false))
    else if |ErrorOpening| + |ErrorClosing| <= |msg| && StartsWith(msg, ErrorOpening) && EndsWith(msg, ErrorClosing) then
      var middle := msg[|ErrorOpening|..|msg| - |ErrorClosing|];
      if middle == "" then Some(ShowReport(false, false, false))
      else if middle == VenueMissing then Some(ShowReport(false, true, false))
      else if middle == ArtistMissing then Some(ShowReport(false, false, true))
      else if middle == VenueMissing + ArtistMissing then Some(ShowReport(false, true, true))
      else None
    else None
  }

  /**
   * The message determines the outcome: it reads back as a success exactly when nothing
   * went wrong, and it carries the venue sentence exactly when the venue was not found and
   * the artist sentence exactly when the artist was not found.
   */
  lemma ShowFlashReadsBack(error: bool, venueNotFound: bool, artistNotFound: bool)
    ensures ReadShowFlash(ShowFlash(error, venueNotFound, artistNotFound))
            == Some(ShowReport(!error && !venueNotFound && !artistNotFound, venueNotFound, artistNotFound))
  {
    if error || venueNotFound || artistNotFound {
      var middle := Middle(venueNotFound, artistNotFound);
      Framed(ErrorOpening, middle, ErrorClosing);
      SentenceLengths();
    }
  }

  /**
   * `create_show_submission`. The artist is looked up first and the venue second, each
   * marked not found when its id is not among the existing ones (`artists`, `venues`); a
   * missing form field raises at its read and skips what follows; a show without artist
   * or venue violates the not-null columns, so its commit fails. `storeFails` stands for
   * the store raising at the first lookup, and equally for a commit that fails with both
   * ids found (a `start_time` the date column rejects): both flash the plain failure.
   */
  function CreateShowSubmission(form: Form, artists: set<string>, venues: set<string>, storeFails: bool): (msg: string)
    ensures msg == ShowListed <==>
      && !storeFails
      && HasKey(form, "artist_id") && Lookup(form, "artist_id").value in artists
      && HasKey(form, "venue_id") && Lookup(form, "venue_id").value in venues
      && HasKey(form, "start_time")
    ensures ReadShowFlash(msg).Some?
    ensures ReadShowFlash(msg).value.venueNotFound <==>
      !storeFails && HasKey(form, "artist_id") && HasKey(form, "venue_id")
      && Lookup(form, "venue_id").value !in venues
    ensures ReadShowFlash(msg).value.artistNotFound <==>
      !storeFails && HasKey(form, "artist_id") && Lookup(form, "artist_id").value !in artists
  {
    var (error, venueNotFound, artistNotFound) :=
      if storeFails then (true, false, false)
      else
        match Lookup(form, "artist_id")
        case None => (true, false, false)
        case Some(artistId) =>
          var artistNotFound := artistId !in artists;
          match Lookup(form, "venue_id")
          case None => (true, false, artistNotFound)
          case Some(venueId) =>
            var venueNotFound := venueId !in venues;
            (!HasKey(form, "start_time") || venueNotFound || artistNotFound, venueNotFound, artistNotFound);
    ShowFlashReadsBack(error, venueNotFound, artistNotFound);
    ShowFlash(error, venueNotFound, artistNotFound)
  }
}
