/** The report's field table: the fixed labels the regeneration looks for,
    the values drawn for them, the positions table built by searching the
    extracted words for every label, and the page size the overlay uses. */
module Report {
  import opened Locator
  import opened Decimal
  import opened Drawing
  import opened Overlay

  /** The edited report data the fields are filled from. */
  datatype ReportData = ReportData(
    name: string,
    jobs: string, colleges: string, emails: string, locations: string,
    platformsEvaluated: int, flaggedPosts: int, flaggedCategories: int)

  /** The labels, in the order the table lists them and the overlay draws them. */
  const Labels: seq<string> := [
    "Name:", "Jobs:", "Colleges:", "Emails:", "Locations:",
    "Platforms Evaluated:", "Flagged Posts:", "Flagged Categories:" ]

  /** The label whose anchors receive the profile image. */
  const ProfileImageLabel: string := "Profile Image"

  /** US letter, 8.5 by 11 inches in points. */
  const Letter: PageSize := PageSize(612.0, 792.0)

  /** The field table: each label with its value; the counters are
      rendered as decimal numerals. */
  function FieldsToUpdate(data: ReportData): seq<Field> {
    [ Field("Name:", data.name),
      Field("Jobs:", data.jobs),
      Field("Colleges:", data.colleges),
      Field("Emails:", data.emails),
      Field("Locations:", data.locations),
      Field("Platforms Evaluated:", IntToString(data.platformsEvaluated)),
      Field("Flagged Posts:", IntToString(data.flaggedPosts)),
      Field("Flagged Categories:", IntToString(data.flaggedCategories)) ]
  }

  /** The search results for every label, plus the anchors of the profile
      image under their own key. */
  function PositionsDict(words: seq<Word>): (r: map<string, seq<Word>>)
    ensures r.Keys == (set l | l in Labels) + {ProfileImageKey}
  {
    (map l | l in Labels :: Matches(words, l))[ProfileImageKey := Matches(words, ProfileImageLabel)]
  }

  /** The table has one entry per label, in label order, and no label
      repeats, so it behaves as the dictionary it stands for; the image
      key is not one of the labels, so it is never drawn as text. */
  lemma FieldTableShape(data: ReportData)
    ensures |FieldsToUpdate(data)| == |Labels|
    ensures forall i :: 0 <= i < |Labels| ==> FieldsToUpdate(data)[i].name == Labels[i]
    ensures forall i, j :: 0 <= i < j < |Labels| ==> Labels[i] != Labels[j]
    ensures ProfileImageKey !in Labels
  {
  }

  /** The counters survive their rendering: reading a drawn counter back
      gives the counter. */
  lemma CountersRoundTrip(data: ReportData)
    ensures ParseInt(FieldsToUpdate(data)[5].value) == data.platformsEvaluated
    ensures ParseInt(FieldsToUpdate(data)[6].value) == data.flaggedPosts
    ensures ParseInt(FieldsToUpdate(data)[7].value) == data.flaggedCategories
  {
    IntRoundTrip(data.platformsEvaluated);
    IntRoundTrip(data.flaggedPosts);
    IntRoundTrip(data.flaggedCategories);
  }

  /** Every label is searched for with itself, and the image key with the
      literal 'Profile Image'. */
  lemma PositionsDictLookups(words: seq<Word>)
    ensures forall l :: l in Labels ==> Lookup(PositionsDict(words), l) == Matches(words, l)
    ensures Lookup(PositionsDict(words), ProfileImageKey) == Matches(words, ProfileImageLabel)
  {
    FieldTableShape(ReportData("", "", "", "", "", 0, 0, 0));
  }
}
