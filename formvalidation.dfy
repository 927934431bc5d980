/**
 * The validation pass the submit button runs (form.ts, and form.js, its
 * compiled twin): sixteen checks in a fixed order, each adding its message to
 * the error list when it fails. The pass is specified as the list of checks
 * filtered by failure; the handler's push-by-push code, section by section, is
 * proved to compute it.
 */
module FormValidation {
  import opened Wrappers
  import opened JsStrings
  import opened Validators

  /** The raw values the handler reads from the form, before any trimming:
      the `.value` of each control, and the `.value` of each file input of the
      photo area, in document order. */
  datatype Snapshot = Snapshot(
    region: string,
    commune: string,
    sector: string,
    name: string,
    email: string,
    cell: string,
    contactMethod: string,
    contactId: string,
    petType: string,
    amount: string,
    age: string,
    ageUnit: string,
    delivery: string,
    photos: seq<string>)

  // ---------------------------------------------------------------------------
  // The checks and their messages, in the handler's order
  // ---------------------------------------------------------------------------

  datatype Check =
    | Region | Commune | Sector                               // Location
    | Name | Email | Cell | ContactId                        // Contact
    | PetType | Amount | Age | AgeUnit                       // Pet
    | DeliveryFormat | DeliveryOrder                         // Delivery
    | NoPhotoInput | NoPhotoSelected | TooManyPhotos         // Photos

  const LocationChecks: seq<Check> := [Region, Commune, Sector]
  const ContactChecks: seq<Check> := [Name, Email, Cell, ContactId]
  const PetChecks: seq<Check> := [PetType, Amount, Age, AgeUnit]
  const DeliveryChecks: seq<Check> := [DeliveryFormat, DeliveryOrder]
  const PhotoChecks: seq<Check> := [NoPhotoInput, NoPhotoSelected, TooManyPhotos]

  /** All sixteen checks, in the handler's order. */
  const Checks: seq<Check> := [
    Region, Commune, Sector, Name, Email, Cell, ContactId, PetType, Amount, Age, AgeUnit,
    DeliveryFormat, DeliveryOrder, NoPhotoInput, NoPhotoSelected, TooManyPhotos
  ]

  /** The group a check belongs to: 0 Location, 1 Contact, 2 Pet, 3 Delivery, 4 Photos. */
  function Section(c: Check): (g: nat)
    ensures g <= 4
  {
    match c
    case Region | Commune | Sector => 0
    case Name | Email | Cell | ContactId => 1
    case PetType | Amount | Age | AgeUnit => 2
    case DeliveryFormat | DeliveryOrder => 3
    case NoPhotoInput | NoPhotoSelected | TooManyPhotos => 4
  }

  /** The message the handler pushes when a check fails. */
  function MessageText(c: Check): string
  {
    match c
    case Region => "Region is required."
    case Commune => "Commune is required."
    case Sector => "Sector max length is 100."
    case Name => "Name must be between 3 and 200 characters."
    case Email => "Email is invalid (simple regex) or exceeds 100 characters."
    case Cell => "Cellphone must match +NNN.NNNNNNNN (e.g., +569.12345678)."
    case ContactId => "Contact ID/URL max length is 200."
    case PetType => "Pet type is required (dog or cat)."
    case Amount => "Amount must be an integer ≥ 1."
    case Age => "Age must be an integer ≥ 1."
    case AgeUnit => "Age unit is required (months or years)."
    case DeliveryFormat => "Delivery datetime must be in YYYY-MM-DDTHH:mm."
    case DeliveryOrder => "Delivery datetime must be ≥ the prefilled value (now + 3h)."
    case NoPhotoInput => "At least one photo input is required (click 'Add another photo')."
    case NoPhotoSelected => "Please select at least one photo file."
    case TooManyPhotos => "Maximum of 5 photos."
  }

  /** The position of each check in `Checks`. */
  function Rank(c: Check): nat
  {
    match c
    case Region => 0
    case Commune => 1
    case Sector => 2
    case Name => 3
    case Email => 4
    case Cell => 5
    case ContactId => 6
    case PetType => 7
    case Amount => 8
    case Age => 9
    case AgeUnit => 10
    case DeliveryFormat => 11
    case DeliveryOrder => 12
    case NoPhotoInput => 13
    case NoPhotoSelected => 14
    case TooManyPhotos => 15
  }

  /** Strictly increasing rank: the checks' own order, each at most once. */
  predicate RankOrdered(cs: seq<Check>)
  {
    forall i, j | 0 <= i < j < |cs| :: Rank(cs[i]) < Rank(cs[j])
  }

  /** `Checks` is the five sections one after the other and lists every check
      once, at its rank. */
  lemma ChecksInOrder()
    ensures Checks == LocationChecks + ContactChecks + PetChecks + DeliveryChecks + PhotoChecks
    ensures |Checks| == 16 && RankOrdered(Checks)
    ensures forall c: Check :: Rank(c) < |Checks| && Checks[Rank(c)] == c
  {
    forall i | 0 <= i < |Checks| ensures Rank(Checks[i]) == i {
    }
  }

  /** A later check never belongs to an earlier section. */
  lemma SectionFollowsRank(c: Check, d: Check)
    requires Rank(c) <= Rank(d)
    ensures Section(c) <= Section(d)
  {
  }

  // ---------------------------------------------------------------------------
  // The checks
  // ---------------------------------------------------------------------------

  /** How many file inputs hold a file: `inputs.filter(f => f.value && f.value.trim() !== "").length`.
      An empty value is falsy and trims to the empty string, so one test covers both. */
  function SelectedCount(photos: seq<string>): (n: nat)
    ensures n <= |photos|
  {
    if photos == [] then 0
    else
      var n := |photos| - 1;
      SelectedCount(photos[..n]) + (if Trim(photos[n]) != "" then 1 else 0)
  }

  /** No file is selected exactly when every file input's value trims to "". */
  lemma {:induction false} SelectedCountZero(photos: seq<string>)
    ensures SelectedCount(photos) == 0 <==> forall k | 0 <= k < |photos| :: Trim(photos[k]) == ""
  {
    if photos != [] {
      var n := |photos| - 1;
      SelectedCountZero(photos[..n]);
      assert forall k | 0 <= k < n :: photos[..n][k] == photos[k];
    }
  }

  /** Whether check `c` fails on snapshot `s`: the condition of the handler's
      `if` for `c`. Region, commune, type and age unit must be chosen; the
      sector and the contact id are not trimmed, and the contact id is checked
      only when a contact method is chosen; name, email, cell and delivery are
      trimmed; amount and age are read as typed; the delivery is compared with
      the baseline only when it has the shape; there must be one to five file
      inputs, at least one of which holds a file. */
  predicate Fails(s: Snapshot, baseline: string, c: Check)
  {
    match c
    case Region => s.region == ""
    case Commune => s.commune == ""
    case Sector => |s.sector| > 100
    case Name => |Trim(s.name)| < 3 || |Trim(s.name)| > 200
    case Email => !IsEmailOk(Trim(s.email))
    case Cell => !IsCellOk(Trim(s.cell))
    case ContactId => s.contactMethod != "" && |s.contactId| > 200
    case PetType => s.petType == ""
    case Amount => !IsIntMin1(s.amount)
    case Age => !IsIntMin1(s.age)
    case AgeUnit => s.ageUnit == ""
    case DeliveryFormat => !IsDtLocalFormat(Trim(s.delivery))
    case DeliveryOrder => IsDtLocalFormat(Trim(s.delivery)) && !IsAtLeastBaseline(Trim(s.delivery), baseline)
    case NoPhotoInput => |s.photos| < 1
    case NoPhotoSelected => SelectedCount(s.photos) < 1
    case TooManyPhotos => |s.photos| > 5
  }

  /** The verdicts of each block, check by check. */
  lemma LocationVerdicts(s: Snapshot, baseline: string)
    ensures Fails(s, baseline, Region) == (s.region == "")
    ensures Fails(s, baseline, Commune) == (s.commune == "")
    ensures Fails(s, baseline, Sector) == (|s.sector| > 100)
  {
  }

  lemma ContactVerdicts(s: Snapshot, baseline: string)
    ensures Fails(s, baseline, Name) == (|Trim(s.name)| < 3 || |Trim(s.name)| > 200)
    ensures Fails(s, baseline, Email) == !IsEmailOk(Trim(s.email))
    ensures Fails(s, baseline, Cell) == !IsCellOk(Trim(s.cell))
    ensures Fails(s, baseline, ContactId) == (s.contactMethod != "" && |s.contactId| > 200)
  {
  }

  lemma PetVerdicts(s: Snapshot, baseline: string)
    ensures Fails(s, baseline, PetType) == (s.petType == "")
    ensures Fails(s, baseline, Amount) == !IsIntMin1(s.amount)
    ensures Fails(s, baseline, Age) == !IsIntMin1(s.age)
    ensures Fails(s, baseline, AgeUnit) == (s.ageUnit == "")
  {
  }

  lemma DeliveryVerdicts(s: Snapshot, baseline: string)
    ensures Fails(s, baseline, DeliveryFormat) == !IsDtLocalFormat(Trim(s.delivery))
    ensures Fails(s, baseline, DeliveryOrder) ==
      (IsDtLocalFormat(Trim(s.delivery)) && !IsAtLeastBaseline(Trim(s.delivery), baseline))
  {
  }

  lemma PhotoVerdicts(s: Snapshot, baseline: string)
    ensures Fails(s, baseline, NoPhotoInput) == (|s.photos| < 1)
    ensures Fails(s, baseline, NoPhotoSelected) == (SelectedCount(s.photos) < 1)
    ensures Fails(s, baseline, TooManyPhotos) == (|s.photos| > 5)
  {
  }

  /** Check `c` when it fails, nothing when it passes. */
  function Kept(s: Snapshot, baseline: string, c: Check): (r: seq<Check>)
    ensures r == [c] || r == []
  {
    if Fails(s, baseline, c) then [c] else []
  }

  /** The checks of `cs` that fail, in the order of `cs`. */
  function FailedAmong(s: Snapshot, baseline: string, cs: seq<Check>): (r: seq<Check>)
    ensures |r| <= |cs|
  {
    if cs == [] then []
    else
      var n := |cs| - 1;
      FailedAmong(s, baseline, cs[..n]) + Kept(s, baseline, cs[n])
  }

  /** The checks that fail, in the handler's order. */
  function FailedChecks(s: Snapshot, baseline: string): seq<Check>
  {
    FailedAmong(s, baseline, Checks)
  }

  /** The messages of a list of checks. */
  function Texts(cs: seq<Check>): (r: seq<string>)
    ensures |r| == |cs| && forall i | 0 <= i < |cs| :: r[i] == MessageText(cs[i])
  {
    seq(|cs|, i requires 0 <= i < |cs| => MessageText(cs[i]))
  }

  /** The error list of one submit. */
  function Validate(s: Snapshot, baseline: string): seq<string>
  {
    Texts(FailedChecks(s, baseline))
  }

  // ---------------------------------------------------------------------------
  // The filter
  // ---------------------------------------------------------------------------

  /** A check is kept exactly when it is in the list and fails. */
  lemma {:induction false} FailedAmongMembers(s: Snapshot, baseline: string, cs: seq<Check>, c: Check)
    ensures c in FailedAmong(s, baseline, cs) <==> c in cs && Fails(s, baseline, c)
  {
    if cs != [] {
      var n := |cs| - 1;
      FailedAmongMembers(s, baseline, cs[..n], c);
      assert cs == cs[..n] + [cs[n]];
    }
  }

  /** Filtering keeps the checks below any rank bound of the list. */
  lemma {:induction false} FailedAmongBounded(s: Snapshot, baseline: string, cs: seq<Check>, bound: nat)
    requires forall k | 0 <= k < |cs| :: Rank(cs[k]) < bound
    ensures forall k | 0 <= k < |FailedAmong(s, baseline, cs)| :: Rank(FailedAmong(s, baseline, cs)[k]) < bound
  {
    if cs != [] {
      var n := |cs| - 1;
      assert forall k | 0 <= k < n :: cs[..n][k] == cs[k];
      FailedAmongBounded(s, baseline, cs[..n], bound);
      var front, kept, r := FailedAmong(s, baseline, cs[..n]), Kept(s, baseline, cs[n]), FailedAmong(s, baseline, cs);
      assert r == front + kept;
      forall k | 0 <= k < |r| ensures Rank(r[k]) < bound {
        if k < |front| {
          assert r[k] == front[k];
        } else {
          assert kept == [cs[n]] && r[k] == cs[n];
          assert Rank(cs[n]) < bound;
        }
      }
    }
  }

  /** Filtering keeps the checks' order. */
  lemma {:induction false} FailedAmongOrdered(s: Snapshot, baseline: string, cs: seq<Check>)
    requires RankOrdered(cs)
    ensures RankOrdered(FailedAmong(s, baseline, cs))
  {
    if cs != [] {
      var n := |cs| - 1;
      var init := cs[..n];
      assert RankOrdered(init) by {
        forall i, j | 0 <= i < j < |init| ensures Rank(init[i]) < Rank(init[j]) {
          assert init[i] == cs[i] && init[j] == cs[j];
        }
      }
      FailedAmongOrdered(s, baseline, init);
      assert forall k | 0 <= k < n :: Rank(init[k]) < Rank(cs[n]) by {
        forall k | 0 <= k < n ensures Rank(init[k]) < Rank(cs[n]) {
          assert init[k] == cs[k];
        }
      }
      FailedAmongBounded(s, baseline, init, Rank(cs[n]));
      var front, kept, r := FailedAmong(s, baseline, init), Kept(s, baseline, cs[n]), FailedAmong(s, baseline, cs);
      assert r == front + kept;
      forall i, j | 0 <= i < j < |r| ensures Rank(r[i]) < Rank(r[j]) {
        if j < |front| {
          assert r[i] == front[i] && r[j] == front[j];
        } else {
          assert kept == [cs[n]] && r[i] == front[i] && r[j] == cs[n];
          assert Rank(front[i]) < Rank(cs[n]);
        }
      }
    }
  }

  /** Filtering two lists one after the other filters their concatenation. */
  lemma {:induction false} FailedAmongAppend(s: Snapshot, baseline: string, a: seq<Check>, b: seq<Check>)
    ensures FailedAmong(s, baseline, a + b) == FailedAmong(s, baseline, a) + FailedAmong(s, baseline, b)
    decreases |b|
  {
    if b == [] {
      assert a + b == a;
    } else {
      var n := |b| - 1;
      assert (a + b)[..|a + b| - 1] == a + b[..n];
      FailedAmongAppend(s, baseline, a, b[..n]);
    }
  }

  lemma TextsAppend(a: seq<Check>, b: seq<Check>)
    ensures Texts(a + b) == Texts(a) + Texts(b)
  {
  }

  /** The failed checks are those of Location, then Contact, Pet, Delivery and Photos. */
  lemma FailedChecksBySection(s: Snapshot, baseline: string)
    ensures FailedChecks(s, baseline) ==
      FailedAmong(s, baseline, LocationChecks) + FailedAmong(s, baseline, ContactChecks)
      + FailedAmong(s, baseline, PetChecks) + FailedAmong(s, baseline, DeliveryChecks)
      + FailedAmong(s, baseline, PhotoChecks)
  {
    ChecksInOrder();
    var l, c, p, d := LocationChecks, ContactChecks, PetChecks, DeliveryChecks;
    FailedAmongAppend(s, baseline, l + c + p + d, PhotoChecks);
    FailedAmongAppend(s, baseline, l + c + p, d);
    FailedAmongAppend(s, baseline, l + c, p);
    FailedAmongAppend(s, baseline, l, c);
  }

  /** The error list is the Location messages, then Contact, Pet, Delivery and Photos. */
  lemma ValidateBySection(s: Snapshot, baseline: string)
    ensures Validate(s, baseline) ==
      Texts(FailedAmong(s, baseline, LocationChecks)) + Texts(FailedAmong(s, baseline, ContactChecks))
      + Texts(FailedAmong(s, baseline, PetChecks)) + Texts(FailedAmong(s, baseline, DeliveryChecks))
      + Texts(FailedAmong(s, baseline, PhotoChecks))
  {
    FailedChecksBySection(s, baseline);
    var l, c, p := FailedAmong(s, baseline, LocationChecks), FailedAmong(s, baseline, ContactChecks), FailedAmong(s, baseline, PetChecks);
    var d, f := FailedAmong(s, baseline, DeliveryChecks), FailedAmong(s, baseline, PhotoChecks);
    TextsAppend(l + c + p + d, f);
    TextsAppend(l + c + p, d);
    TextsAppend(l + c, p);
    TextsAppend(l, c);
  }

  /** A list of one check keeps it exactly when it fails. */
  lemma FailedAmongSingle(s: Snapshot, baseline: string, c: Check)
    ensures FailedAmong(s, baseline, [c]) == Kept(s, baseline, c)
  {
    assert [c][..0] == [];
  }

  lemma FailedAmongPair(s: Snapshot, baseline: string, c: Check, d: Check)
    ensures FailedAmong(s, baseline, [c, d]) == Kept(s, baseline, c) + Kept(s, baseline, d)
  {
    assert [c, d] == [c] + [d];
    FailedAmongAppend(s, baseline, [c], [d]);
    FailedAmongSingle(s, baseline, c);
    FailedAmongSingle(s, baseline, d);
  }

  lemma FailedAmongTriple(s: Snapshot, baseline: string, c: Check, d: Check, e: Check)
    ensures FailedAmong(s, baseline, [c, d, e]) == Kept(s, baseline, c) + Kept(s, baseline, d) + Kept(s, baseline, e)
  {
    assert [c, d, e] == [c, d] + [e];
    FailedAmongAppend(s, baseline, [c, d], [e]);
    FailedAmongPair(s, baseline, c, d);
    FailedAmongSingle(s, baseline, e);
  }

  lemma FailedAmongQuad(s: Snapshot, baseline: string, c: Check, d: Check, e: Check, f: Check)
    ensures FailedAmong(s, baseline, [c, d, e, f]) ==
      Kept(s, baseline, c) + Kept(s, baseline, d) + Kept(s, baseline, e) + Kept(s, baseline, f)
  {
    assert [c, d, e, f] == [c, d, e] + [f];
    FailedAmongAppend(s, baseline, [c, d, e], [f]);
    FailedAmongTriple(s, baseline, c, d, e);
    FailedAmongSingle(s, baseline, f);
  }

  lemma TextsOfFour(a: seq<Check>, b: seq<Check>, c: seq<Check>, d: seq<Check>)
    ensures Texts(a + b + c + d) == Texts(a) + Texts(b) + Texts(c) + Texts(d)
  {
    TextsAppend(a + b + c, d);
    TextsAppend(a + b, c);
    TextsAppend(a, b);
  }

  /** Pushing four blocks' messages one after the other appends the messages of
      the four blocks together. */
  lemma AppendTextsOfFour(errs: seq<string>, a: seq<Check>, b: seq<Check>, c: seq<Check>, d: seq<Check>)
    ensures errs + Texts(a) + Texts(b) + Texts(c) + Texts(d) == errs + Texts(a + b + c + d)
  {
    TextsOfFour(a, b, c, d);
  }

  // ---------------------------------------------------------------------------
  // The handler
  // ---------------------------------------------------------------------------

  /** One `if (...) errs.push(...)` of the submit handler: the message of `c` is
      pushed when `c` fails (form.ts:132, form.js:126-127). */
  method RunCheck(s: Snapshot, baselineStr: string, errs: seq<string>, c: Check) returns (out: seq<string>)
    ensures out == errs + Texts(Kept(s, baselineStr, c))
  {
    if Fails(s, baselineStr, c) {
      out := errs + [MessageText(c)];
    } else {
      out := errs;
    }
  }

  /** The Location block: region, commune, sector (form.ts:131-134, form.js:125-131). */
  method CheckLocation(s: Snapshot, baselineStr: string, errs: seq<string>) returns (out: seq<string>)
    ensures out == errs + Texts(FailedAmong(s, baselineStr, LocationChecks))
  {
    out := RunCheck(s, baselineStr, errs, Region);
    out := RunCheck(s, baselineStr, out, Commune);
    out := RunCheck(s, baselineStr, out, Sector);
    FailedAmongTriple(s, baselineStr, Region, Commune, Sector);
    AppendTextsOfFour(errs, Kept(s, baselineStr, Region), Kept(s, baselineStr, Commune), Kept(s, baselineStr, Sector), []);
  }

  /** The Contact block: name, email and cell (each trimmed), contact id
      (form.ts:136-142, form.js:132-141). */
  method CheckContact(s: Snapshot, baselineStr: string, errs: seq<string>) returns (out: seq<string>)
    ensures out == errs + Texts(FailedAmong(s, baselineStr, ContactChecks))
  {
    out := RunCheck(s, baselineStr, errs, Name);
    out := RunCheck(s, baselineStr, out, Email);
    out := RunCheck(s, baselineStr, out, Cell);
    out := RunCheck(s, baselineStr, out, ContactId);
    FailedAmongQuad(s, baselineStr, Name, Email, Cell, ContactId);
    AppendTextsOfFour(errs, Kept(s, baselineStr, Name), Kept(s, baselineStr, Email), Kept(s, baselineStr, Cell), Kept(s, baselineStr, ContactId));
  }

  /** The Pet block: type, amount, age, age unit (form.ts:144-148, form.js:142-150). */
  method CheckPet(s: Snapshot, baselineStr: string, errs: seq<string>) returns (out: seq<string>)
    ensures out == errs + Texts(FailedAmong(s, baselineStr, PetChecks))
  {
    out := RunCheck(s, baselineStr, errs, PetType);
    out := RunCheck(s, baselineStr, out, Amount);
    out := RunCheck(s, baselineStr, out, Age);
    out := RunCheck(s, baselineStr, out, AgeUnit);
    FailedAmongQuad(s, baselineStr, PetType, Amount, Age, AgeUnit);
    AppendTextsOfFour(errs, Kept(s, baselineStr, PetType), Kept(s, baselineStr, Amount), Kept(s, baselineStr, Age), Kept(s, baselineStr, AgeUnit));
  }

  /** The Delivery block: the shape of the trimmed value, then its order against
      the baseline (form.ts:150-156, form.js:151-158). */
  method CheckDelivery(s: Snapshot, baselineStr: string, errs: seq<string>) returns (out: seq<string>)
    ensures out == errs + Texts(FailedAmong(s, baselineStr, DeliveryChecks))
  {
    out := RunCheck(s, baselineStr, errs, DeliveryFormat);
    out := RunCheck(s, baselineStr, out, DeliveryOrder);
    FailedAmongPair(s, baselineStr, DeliveryFormat, DeliveryOrder);
    AppendTextsOfFour(errs, Kept(s, baselineStr, DeliveryFormat), Kept(s, baselineStr, DeliveryOrder), [], []);
  }

  /** The Photos block: the number of file inputs, and how many hold a file
      (form.ts:158-163, form.js:159-167). */
  method CheckPhotos(s: Snapshot, baselineStr: string, errs: seq<string>) returns (out: seq<string>)
    ensures out == errs + Texts(FailedAmong(s, baselineStr, PhotoChecks))
  {
    out := RunCheck(s, baselineStr, errs, NoPhotoInput);
    out := RunCheck(s, baselineStr, out, NoPhotoSelected);
    out := RunCheck(s, baselineStr, out, TooManyPhotos);
    FailedAmongTriple(s, baselineStr, NoPhotoInput, NoPhotoSelected, TooManyPhotos);
    AppendTextsOfFour(errs, Kept(s, baselineStr, NoPhotoInput), Kept(s, baselineStr, NoPhotoSelected), Kept(s, baselineStr, TooManyPhotos), []);
  }

  /** The submit handler's validation: the five blocks in order, starting from an
      empty list; the baseline is the delivery input's data attribute or ""
      (form.ts:128-164, form.js:123-167). */
  method SubmitErrors(s: Snapshot, baselineAttribute: Option<string>) returns (errs: seq<string>)
    ensures errs == Validate(s, OrEmpty(baselineAttribute))
  {
    var baselineStr := OrEmpty(baselineAttribute);
    errs := CheckLocation(s, baselineStr, []);
    assert errs == Texts(FailedAmong(s, baselineStr, LocationChecks));
    errs := CheckContact(s, baselineStr, errs);
    errs := CheckPet(s, baselineStr, errs);
    errs := CheckDelivery(s, baselineStr, errs);
    errs := CheckPhotos(s, baselineStr, errs);
    ValidateBySection(s, baselineStr);
  }
}
