/**
 * What the submit handler's validation pass guarantees: one message per failed
 * check and no other, in the handler's order, never twice; which checks exclude
 * each other and how many can fail together; exactly when the list is empty;
 * and how trimming and the baseline affect the delivery checks.
 */
module ValidationFacts {
  import opened Wrappers
  import opened JsStrings
  import opened Validators
  import opened FormValidation
  import opened MessageFacts

  // ---------------------------------------------------------------------------
  // What the list holds
  // ---------------------------------------------------------------------------

  /** A check is among the failed ones exactly when it fails. */
  lemma FailedChecksExactly(s: Snapshot, baseline: string, c: Check)
    ensures c in FailedChecks(s, baseline) <==> Fails(s, baseline, c)
  {
    ChecksInOrder();
    FailedAmongMembers(s, baseline, Checks, c);
  }

  /** The failed checks come in the handler's order, each at most once, so
      Location comes before Contact, Pet, Delivery and Photos. */
  lemma FailedChecksInOrder(s: Snapshot, baseline: string)
    ensures RankOrdered(FailedChecks(s, baseline))
    ensures var r := FailedChecks(s, baseline);
      forall i, j | 0 <= i < j < |r| :: r[i] != r[j] && Section(r[i]) <= Section(r[j])
  {
    ChecksInOrder();
    FailedAmongOrdered(s, baseline, Checks);
    var r := FailedChecks(s, baseline);
    forall i, j | 0 <= i < j < |r| ensures r[i] != r[j] && Section(r[i]) <= Section(r[j]) {
      SectionFollowsRank(r[i], r[j]);
    }
  }

  /** The message of a check of `cs` is among the messages of `cs`. */
  lemma TextsHoldMessage(cs: seq<Check>, c: Check)
    requires c in cs
    ensures MessageText(c) in Texts(cs)
  {
    var i :| 0 <= i < |cs| && cs[i] == c;
    assert Texts(cs)[i] == MessageText(c);
  }

  /** A message among the messages of `cs` belongs to a check of `cs`. */
  lemma TextsOnlyMessages(cs: seq<Check>, c: Check)
    requires MessageText(c) in Texts(cs)
    ensures c in cs
  {
    var t := Texts(cs);
    var i :| 0 <= i < |t| && t[i] == MessageText(c);
    MessageTextInjective(cs[i], c);
  }

  /** The error list holds one message per failed check, and a message is in it
      exactly when its check fails. */
  lemma ValidateReports(s: Snapshot, baseline: string, c: Check)
    ensures |Validate(s, baseline)| == |FailedChecks(s, baseline)|
    ensures MessageText(c) in Validate(s, baseline) <==> Fails(s, baseline, c)
  {
    var cs := FailedChecks(s, baseline);
    FailedChecksExactly(s, baseline, c);
    if c in cs {
      TextsHoldMessage(cs, c);
    }
    if MessageText(c) in Texts(cs) {
      TextsOnlyMessages(cs, c);
    }
  }

  /** No message is reported twice. */
  lemma ValidateNoRepeats(s: Snapshot, baseline: string)
    ensures var r := Validate(s, baseline); forall i, j | 0 <= i < j < |r| :: r[i] != r[j]
  {
    FailedChecksInOrder(s, baseline);
    var r, cs := Validate(s, baseline), FailedChecks(s, baseline);
    forall i, j | 0 <= i < j < |r| ensures r[i] != r[j] {
      if r[i] == r[j] {
        MessageTextInjective(cs[i], cs[j]);
      }
    }
  }

  // ---------------------------------------------------------------------------
  // Checks that exclude each other
  // ---------------------------------------------------------------------------

  /** The delivery fails at most one of its two checks: the ordering is only
      checked on a well-formed value. */
  lemma DeliveryFailsAtMostOnce(s: Snapshot, baseline: string)
    ensures var r := FailedAmong(s, baseline, DeliveryChecks);
      r == [] || r == [DeliveryFormat] || r == [DeliveryOrder]
  {
    FailedAmongPair(s, baseline, DeliveryFormat, DeliveryOrder);
    if Fails(s, baseline, DeliveryFormat) {
      assert Kept(s, baseline, DeliveryOrder) == [];
    }
  }

  /** "No photo input" and "too many photos" never fail together, so at most two
      photo checks fail. */
  lemma PhotosFailAtMostTwice(s: Snapshot, baseline: string)
    ensures var r := FailedAmong(s, baseline, PhotoChecks);
      |r| <= 2 && !(NoPhotoInput in r && TooManyPhotos in r)
  {
    FailedAmongTriple(s, baseline, NoPhotoInput, NoPhotoSelected, TooManyPhotos);
  }

  /** The shape and the ordering checks of the delivery never both fail, nor do
      the "no photo input" and "too many photos" checks. */
  lemma FailedChecksExclusive(s: Snapshot, baseline: string)
    ensures !(DeliveryFormat in FailedChecks(s, baseline) && DeliveryOrder in FailedChecks(s, baseline))
    ensures !(NoPhotoInput in FailedChecks(s, baseline) && TooManyPhotos in FailedChecks(s, baseline))
  {
    DeliveryFailsAtMostOnce(s, baseline);
    PhotosFailAtMostTwice(s, baseline);
    FailedAmongMembers(s, baseline, DeliveryChecks, DeliveryFormat);
    FailedAmongMembers(s, baseline, DeliveryChecks, DeliveryOrder);
    FailedAmongMembers(s, baseline, PhotoChecks, NoPhotoInput);
    FailedAmongMembers(s, baseline, PhotoChecks, TooManyPhotos);
    FailedChecksExactly(s, baseline, DeliveryFormat);
    FailedChecksExactly(s, baseline, DeliveryOrder);
    FailedChecksExactly(s, baseline, NoPhotoInput);
    FailedChecksExactly(s, baseline, TooManyPhotos);
  }

  /** Of the sixteen checks at most fourteen fail together. */
  lemma FailedChecksAtMost14(s: Snapshot, baseline: string)
    ensures |FailedChecks(s, baseline)| <= 14
  {
    FailedChecksBySection(s, baseline);
    DeliveryFailsAtMostOnce(s, baseline);
    PhotosFailAtMostTwice(s, baseline);
  }

  // ---------------------------------------------------------------------------
  // When the list is empty
  // ---------------------------------------------------------------------------

  predicate LocationAcceptable(s: Snapshot)
  {
    s.region != "" && s.commune != "" && |s.sector| <= 100
  }

  predicate ContactAcceptable(s: Snapshot)
  {
    && 3 <= |Trim(s.name)| <= 200
    && IsEmailOk(Trim(s.email))
    && IsCellOk(Trim(s.cell))
    && (s.contactMethod == "" || |s.contactId| <= 200)
  }

  predicate PetAcceptable(s: Snapshot)
  {
    s.petType != "" && IsIntMin1(s.amount) && IsIntMin1(s.age) && s.ageUnit != ""
  }

  predicate DeliveryAcceptable(s: Snapshot, baseline: string)
  {
    IsDtLocalFormat(Trim(s.delivery)) && IsAtLeastBaseline(Trim(s.delivery), baseline)
  }

  predicate PhotosAcceptable(s: Snapshot)
  {
    1 <= |s.photos| <= 5 && exists k | 0 <= k < |s.photos| :: Trim(s.photos[k]) != ""
  }

  /** Every field acceptable, stated field by field. */
  predicate Acceptable(s: Snapshot, baseline: string)
  {
    LocationAcceptable(s) && ContactAcceptable(s) && PetAcceptable(s)
    && DeliveryAcceptable(s, baseline) && PhotosAcceptable(s)
  }

  lemma LocationPasses(s: Snapshot, baseline: string)
    ensures FailedAmong(s, baseline, LocationChecks) == [] <==> LocationAcceptable(s)
  {
    FailedAmongTriple(s, baseline, Region, Commune, Sector);
  }

  lemma ContactPasses(s: Snapshot, baseline: string)
    ensures FailedAmong(s, baseline, ContactChecks) == [] <==> ContactAcceptable(s)
  {
    FailedAmongQuad(s, baseline, Name, Email, Cell, ContactId);
  }

  lemma PetPasses(s: Snapshot, baseline: string)
    ensures FailedAmong(s, baseline, PetChecks) == [] <==> PetAcceptable(s)
  {
    FailedAmongQuad(s, baseline, PetType, Amount, Age, AgeUnit);
  }

  lemma DeliveryPasses(s: Snapshot, baseline: string)
    ensures FailedAmong(s, baseline, DeliveryChecks) == [] <==> DeliveryAcceptable(s, baseline)
  {
    FailedAmongPair(s, baseline, DeliveryFormat, DeliveryOrder);
  }

  lemma PhotosPass(s: Snapshot, baseline: string)
    ensures FailedAmong(s, baseline, PhotoChecks) == [] <==> PhotosAcceptable(s)
  {
    SelectedCountZero(s.photos);
    FailedAmongTriple(s, baseline, NoPhotoInput, NoPhotoSelected, TooManyPhotos);
  }

  /** The list is empty, and the submission goes on to confirmation, exactly
      when every field is acceptable. */
  lemma ValidateEmptyIffAcceptable(s: Snapshot, baseline: string)
    ensures Validate(s, baseline) == [] <==> Acceptable(s, baseline)
  {
    FailedChecksBySection(s, baseline);
    LocationPasses(s, baseline);
    ContactPasses(s, baseline);
    PetPasses(s, baseline);
    DeliveryPasses(s, baseline);
    PhotosPass(s, baseline);
  }

  /** When only region and commune are missing, the list is exactly their two
      messages, in that order. */
  lemma OnlyLocationMissing(s: Snapshot, baseline: string)
    requires s.region == "" && s.commune == "" && |s.sector| <= 100
    requires ContactAcceptable(s) && PetAcceptable(s) && DeliveryAcceptable(s, baseline) && PhotosAcceptable(s)
    ensures FailedChecks(s, baseline) == [Region, Commune]
  {
    ContactPasses(s, baseline);
    PetPasses(s, baseline);
    DeliveryPasses(s, baseline);
    PhotosPass(s, baseline);
    LocationOnly(s, baseline);
  }

  /** The same, from the four other blocks reporting nothing. */
  lemma LocationOnly(s: Snapshot, baseline: string)
    requires s.region == "" && s.commune == "" && |s.sector| <= 100
    requires FailedAmong(s, baseline, ContactChecks) == [] && FailedAmong(s, baseline, PetChecks) == []
    requires FailedAmong(s, baseline, DeliveryChecks) == [] && FailedAmong(s, baseline, PhotoChecks) == []
    ensures FailedChecks(s, baseline) == [Region, Commune]
  {
    FailedAmongTriple(s, baseline, Region, Commune, Sector);
    FailedChecksBySection(s, baseline);
  }

  /** In that case the error list is the region message, then the commune message. */
  lemma OnlyLocationMessages(s: Snapshot, baseline: string)
    requires s.region == "" && s.commune == "" && |s.sector| <= 100
    requires ContactAcceptable(s) && PetAcceptable(s) && DeliveryAcceptable(s, baseline) && PhotosAcceptable(s)
    ensures Validate(s, baseline) == [MessageText(Region), MessageText(Commune)]
  {
    OnlyLocationMissing(s, baseline);
  }

  /** With no photo input at all, "at least one input" and "select a file" both
      fail, and "too many" does not. */
  lemma NoPhotoInputsFailBoth(s: Snapshot, baseline: string)
    requires s.photos == []
    ensures FailedAmong(s, baseline, PhotoChecks) == [NoPhotoInput, NoPhotoSelected]
  {
    FailedAmongTriple(s, baseline, NoPhotoInput, NoPhotoSelected, TooManyPhotos);
  }

  /** Inputs that are all left empty fail only "select a file". */
  lemma EmptyPhotoInputsFailSelection(s: Snapshot, baseline: string)
    requires 1 <= |s.photos| <= 5 && forall k | 0 <= k < |s.photos| :: s.photos[k] == ""
    ensures FailedAmong(s, baseline, PhotoChecks) == [NoPhotoSelected]
  {
    SelectedCountZero(s.photos);
    assert Trim("") == "";
    FailedAmongTriple(s, baseline, NoPhotoInput, NoPhotoSelected, TooManyPhotos);
  }

  // ---------------------------------------------------------------------------
  // The delivery
  // ---------------------------------------------------------------------------

  /** A well-formed delivery equal to the baseline fails neither delivery check. */
  lemma DeliveryAtBaselineAccepted(s: Snapshot)
    requires IsDtLocalFormat(Trim(s.delivery))
    ensures FailedAmong(s, Trim(s.delivery), DeliveryChecks) == []
  {
    LexLessIrreflexive(Trim(s.delivery));
    FailedAmongPair(s, Trim(s.delivery), DeliveryFormat, DeliveryOrder);
  }

  /** A malformed delivery fails the shape check alone; the ordering check is skipped. */
  lemma MalformedDeliveryReportedOnce(s: Snapshot, baseline: string)
    requires !IsDtLocalFormat(Trim(s.delivery))
    ensures FailedAmong(s, baseline, DeliveryChecks) == [DeliveryFormat]
  {
    FailedAmongPair(s, baseline, DeliveryFormat, DeliveryOrder);
  }

  /** A well-formed delivery earlier than the baseline fails the ordering check alone. */
  lemma EarlyDeliveryReported(s: Snapshot, baseline: string)
    requires IsDtLocalFormat(Trim(s.delivery)) && LexLess(Trim(s.delivery), baseline)
    ensures FailedAmong(s, baseline, DeliveryChecks) == [DeliveryOrder]
  {
    FailedAmongPair(s, baseline, DeliveryFormat, DeliveryOrder);
  }

  // ---------------------------------------------------------------------------
  // Blanks
  // ---------------------------------------------------------------------------

  /** A change of the snapshot that no check of `cs` notices leaves the failed checks of `cs` alone. */
  lemma {:induction false} FailedAmongSameVerdicts(s: Snapshot, t: Snapshot, baseline: string, cs: seq<Check>)
    requires forall k | 0 <= k < |cs| :: Fails(s, baseline, cs[k]) == Fails(t, baseline, cs[k])
    ensures FailedAmong(s, baseline, cs) == FailedAmong(t, baseline, cs)
  {
    if cs != [] {
      var n := |cs| - 1;
      assert forall k | 0 <= k < n :: cs[..n][k] == cs[k];
      FailedAmongSameVerdicts(s, t, baseline, cs[..n]);
    }
  }

  /** Only the trimmed delivery text matters: blanks typed around it change nothing. */
  lemma DeliveryBlanksIgnored(s: Snapshot, baseline: string, a: string, b: string)
    requires forall k | 0 <= k < |a| :: IsWs(a[k])
    requires forall k | 0 <= k < |b| :: IsWs(b[k])
    requires s.delivery != [] && !IsWs(s.delivery[0]) && !IsWs(s.delivery[|s.delivery| - 1])
    ensures FailedChecks(s.(delivery := a + s.delivery + b), baseline) == FailedChecks(s, baseline)
  {
    var t := s.(delivery := a + s.delivery + b);
    TrimOfPadded(a, s.delivery, b);
    FailedAmongSameVerdicts(s, t, baseline, DeliveryChecks);
    FailedChecksBySection(s, baseline);
    FailedChecksBySection(t, baseline);
    OtherSectionsIgnoreDelivery(s, t, baseline);
  }

  /** Only the two delivery checks read the delivery. */
  lemma IgnoresDelivery(s: Snapshot, t: Snapshot, baseline: string, c: Check)
    requires t == s.(delivery := t.delivery)
    requires Section(c) != 3
    ensures Fails(s, baseline, c) == Fails(t, baseline, c)
  {
  }

  /** So the location, contact, pet and photo verdicts survive a change of the delivery. */
  lemma OtherSectionsIgnoreDelivery(s: Snapshot, t: Snapshot, baseline: string)
    requires t == s.(delivery := t.delivery)
    ensures FailedAmong(s, baseline, LocationChecks) == FailedAmong(t, baseline, LocationChecks)
    ensures FailedAmong(s, baseline, ContactChecks) == FailedAmong(t, baseline, ContactChecks)
    ensures FailedAmong(s, baseline, PetChecks) == FailedAmong(t, baseline, PetChecks)
    ensures FailedAmong(s, baseline, PhotoChecks) == FailedAmong(t, baseline, PhotoChecks)
  {
    forall c | Section(c) != 3 ensures Fails(s, baseline, c) == Fails(t, baseline, c) {
      IgnoresDelivery(s, t, baseline, c);
    }
    FailedAmongSameVerdicts(s, t, baseline, LocationChecks);
    FailedAmongSameVerdicts(s, t, baseline, ContactChecks);
    FailedAmongSameVerdicts(s, t, baseline, PetChecks);
    FailedAmongSameVerdicts(s, t, baseline, PhotoChecks);
  }

  /** The amount is not trimmed by the handler, but `Number` ignores blanks, so a
      padded amount is judged like the bare one. */
  lemma AmountBlanksIgnored(s: Snapshot, baseline: string, a: string, b: string)
    requires forall k | 0 <= k < |a| :: IsWs(a[k])
    requires forall k | 0 <= k < |b| :: IsWs(b[k])
    requires s.amount != [] && !IsWs(s.amount[0]) && !IsWs(s.amount[|s.amount| - 1])
    ensures FailedChecks(s.(amount := a + s.amount + b), baseline) == FailedChecks(s, baseline)
  {
    var t := s.(amount := a + s.amount + b);
    IntMin1IgnoresBlanks(a, s.amount, b);
    ChecksInOrder();
    FailedAmongSameVerdicts(s, t, baseline, Checks);
  }

  /** The sector is not trimmed: 101 blanks are too long. */
  lemma SectorNotTrimmed(s: Snapshot, baseline: string)
    requires |s.sector| == 101
    ensures Sector in FailedChecks(s, baseline)
  {
    FailedChecksExactly(s, baseline, Sector);
  }
}
