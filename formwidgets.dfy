/**
 * The stateful parts of the form page (form.ts, and form.js, its compiled
 * twin): the list of photo file inputs, the region and commune selects, and
 * the confirm and success modals. Each is a class whose fields the page's
 * handlers update; the DOM elements themselves are not modelled, only the
 * values the handlers read and write.
 */
module FormWidgets {
  import opened Wrappers
  import opened JsStrings
  import opened Data
  import opened FormValidation

  // ---------------------------------------------------------------------------
  // Photo inputs
  // ---------------------------------------------------------------------------

  /** The most file inputs the photo area ever holds. */
  const MaxPhotoInputs: nat := 5

  /** A file input of the photo area: its `name` and its `value` (the chosen
      file's path, "" while none is chosen). */
  datatype PhotoInput = PhotoInput(name: string, value: string)

  /** `photo_${k}`: the name of the k-th input, counted from 1. */
  function SlotName(k: nat): (r: string)
    ensures |r| > 6 && r[..6] == "photo_"
  {
    "photo_" + NatToString(k)
  }

  /** Different positions get different names. */
  lemma SlotNameInjective(j: nat, k: nat)
    requires SlotName(j) == SlotName(k)
    ensures j == k
  {
    assert NatToString(j) == SlotName(j)[6..] == SlotName(k)[6..] == NatToString(k);
    NatToStringInjective(j, k);
  }

  /** At most five inputs, the k-th (from 1) named `photo_k`. */
  predicate WellNamed(inputs: seq<PhotoInput>)
  {
    |inputs| <= MaxPhotoInputs && forall k | 0 <= k < |inputs| :: inputs[k].name == SlotName(k + 1)
  }

  /** What `addPhotoInput` does to the list: nothing at five inputs, otherwise
      one more input, empty, named after the new count. */
  function AddSlot(inputs: seq<PhotoInput>): seq<PhotoInput>
  {
    if |inputs| >= MaxPhotoInputs then inputs
    else inputs + [PhotoInput(SlotName(|inputs| + 1), "")]
  }

  /** What `removeLastPhotoInput` does to the list: the last input goes, if any. */
  function RemoveSlot(inputs: seq<PhotoInput>): seq<PhotoInput>
  {
    if |inputs| > 0 then inputs[..|inputs| - 1] else inputs
  }

  /** Adding keeps the list well named, grows it by one below five and is a
      no-op at five. */
  lemma AddSlotKeepsNames(inputs: seq<PhotoInput>)
    requires WellNamed(inputs)
    ensures WellNamed(AddSlot(inputs))
    ensures |inputs| < MaxPhotoInputs ==> |AddSlot(inputs)| == |inputs| + 1
    ensures |inputs| == MaxPhotoInputs ==> AddSlot(inputs) == inputs
  {
  }

  /** Removing keeps the list well named, shrinks it by one above zero and is a
      no-op at zero. */
  lemma RemoveSlotKeepsNames(inputs: seq<PhotoInput>)
    requires WellNamed(inputs)
    ensures WellNamed(RemoveSlot(inputs))
    ensures |inputs| > 0 ==> |RemoveSlot(inputs)| == |inputs| - 1
    ensures |inputs| == 0 ==> RemoveSlot(inputs) == inputs
  {
    if |inputs| > 0 {
      var r := RemoveSlot(inputs);
      assert forall k | 0 <= k < |r| :: r[k] == inputs[k];
    }
  }

  /** Adding an input below five and removing it again restores the list. */
  lemma AddThenRemoveRestores(inputs: seq<PhotoInput>)
    requires |inputs| < MaxPhotoInputs
    ensures RemoveSlot(AddSlot(inputs)) == inputs
  {
  }

  /** Removing the last input of a well-named list and adding one back gives
      the list again with that input emptied. */
  lemma RemoveThenAddClears(inputs: seq<PhotoInput>)
    requires WellNamed(inputs) && |inputs| > 0
    ensures var n := |inputs| - 1;
      AddSlot(RemoveSlot(inputs)) == inputs[n := PhotoInput(inputs[n].name, "")]
  {
    var n := |inputs| - 1;
    var r := AddSlot(RemoveSlot(inputs));
    assert |r| == |inputs|;
    assert forall k | 0 <= k < n :: r[k] == inputs[k];
  }

  /** The values of the inputs, in document order: what the submit handler reads. */
  function Values(inputs: seq<PhotoInput>): (r: seq<string>)
    ensures |r| == |inputs| && forall k | 0 <= k < |r| :: r[k] == inputs[k].value
  {
    seq(|inputs|, k requires 0 <= k < |inputs| => inputs[k].value)
  }

  /** The photo area (`#photos-wrap`) and its file inputs. */
  class PhotoArea {
    var inputs: seq<PhotoInput>

    predicate Valid()
      reads this
    {
      WellNamed(inputs)
    }

    /** The page's load: the area starts empty and `addPhotoInput()` runs once
        (form.ts:87, form.js:83). */
    constructor ()
      ensures Valid()
      ensures inputs == [PhotoInput("photo_1", "")]
    {
      inputs := [];
      new;
      AddPhotoInput();
      assert NatToString(1) == "1";
      assert SlotName(1) == "photo_1";
    }

    /** `addPhotoInput()`: count the inputs; at five, return; otherwise append
        an empty input named after the new count (form.ts:74-82, form.js:68-77). */
    method AddPhotoInput()
      requires Valid()
      modifies this
      ensures Valid()
      ensures inputs == AddSlot(old(inputs))
    {
      var existing := |inputs|;
      if existing >= MaxPhotoInputs {
        return;
      }
      AddSlotKeepsNames(inputs);
      inputs := inputs + [PhotoInput(SlotName(existing + 1), "")];
    }

    /** `removeLastPhotoInput()`: remove the last input, if there is one
        (form.ts:83-86, form.js:78-82). */
    method RemoveLastPhotoInput()
      requires Valid()
      modifies this
      ensures Valid()
      ensures inputs == RemoveSlot(old(inputs))
    {
      RemoveSlotKeepsNames(inputs);
      if |inputs| > 0 {
        inputs := inputs[..|inputs| - 1];
      }
    }

    /** The "Add another photo" button: at five inputs it raises the alert and
        adds nothing; otherwise it calls `addPhotoInput()` (form.ts:88-94,
        form.js:84-90). */
    method ClickAddPhoto() returns (alerted: bool)
      requires Valid()
      modifies this
      ensures Valid()
      ensures alerted <==> |old(inputs)| >= MaxPhotoInputs
      ensures inputs == AddSlot(old(inputs))
    {
      if |inputs| >= MaxPhotoInputs {
        alerted := true;
        return;
      }
      alerted := false;
      AddPhotoInput();
    }

    /** The browser's part: the user chooses a file, or clears the choice, in
        the k-th input. Names and count stay as they were. */
    method ChooseFile(k: nat, path: string)
      requires Valid() && k < |inputs|
      modifies this
      ensures Valid()
      ensures inputs == old(inputs)[k := PhotoInput(old(inputs)[k].name, path)]
    {
      inputs := inputs[k := PhotoInput(inputs[k].name, path)];
    }
  }

  /** However the buttons are used, the "Maximum of 5 photos." check never fails. */
  lemma WellNamedNeverTooMany(s: Snapshot, baseline: string, inputs: seq<PhotoInput>)
    requires WellNamed(inputs) && s.photos == Values(inputs)
    ensures !Fails(s, baseline, TooManyPhotos)
  {
  }

  /** Removing every input makes the submit report "at least one input" and
      "select a file", and only those two photo messages. */
  lemma NoInputsLeft(s: Snapshot, baseline: string, inputs: seq<PhotoInput>)
    requires inputs == [] && s.photos == Values(inputs)
    ensures FailedAmong(s, baseline, PhotoChecks) == [NoPhotoInput, NoPhotoSelected]
  {
    FailedAmongTriple(s, baseline, NoPhotoInput, NoPhotoSelected, TooManyPhotos);
  }

  // ---------------------------------------------------------------------------
  // Region and commune selects
  // ---------------------------------------------------------------------------

  /** The names of a region catalog, in order. */
  function RegionNames(regions: seq<Region>): (r: seq<string>)
    ensures |r| == |regions| && forall k | 0 <= k < |r| :: r[k] == regions[k].name
  {
    seq(|regions|, k requires 0 <= k < |regions| => regions[k].name)
  }

  /** The region select: the values of its options. */
  class RegionSelect {
    var options: seq<string>

    /** `REGIONS.forEach(r => regionSel.appendChild(option r.name))`, over the
        catalog `regions`: one option per region, in the catalog's order, after
        those already there (form.ts:39-44, form.js:35-40). */
    method Populate(regions: seq<Region>)
      modifies this
      ensures options == old(options) + RegionNames(regions)
    {
      var i := 0;
      while i < |regions|
        invariant 0 <= i <= |regions|
        invariant options == old(options) + RegionNames(regions)[..i]
      {
        options := options + [regions[i].name];
        i := i + 1;
      }
    }
  }

  /** The commune select: the values of its options and its `disabled` flag. */
  class CommuneSelect {
    var options: seq<string>
    var disabled: bool

    /** The region select's change handler for the chosen `regionValue`, over
        the catalog `regions`: empty the options; if a region of that name
        exists, append its communes one by one and enable the select, otherwise
        disable it (form.ts:46-59, form.js:41-56). */
    method OnRegionChange(regions: seq<Region>, regionValue: string)
      modifies this
      ensures match FindRegion(regions, regionValue)
        case Some(region) => options == region.communes && !disabled
        case None => options == [] && disabled
    {
      options := [];
      var region := FindRegion(regions, regionValue);
      if region.Some? {
        var communes := region.value.communes;
        var i := 0;
        while i < |communes|
          invariant 0 <= i <= |communes|
          invariant options == communes[..i]
        {
          options := options + [communes[i]];
          i := i + 1;
        }
        disabled := false;
      } else {
        disabled := true;
      }
    }
  }

  /** The regions from position `i` on all have a name, checked one by one. */
  predicate NamedFrom(regions: seq<Region>, i: nat)
    decreases |regions| - i
  {
    i >= |regions| || (regions[i].name != "" && NamedFrom(regions, i + 1))
  }

  lemma {:induction false} NamedFromMeans(regions: seq<Region>, i: nat)
    requires NamedFrom(regions, i)
    ensures forall k | i <= k < |regions| :: regions[k].name != ""
    decreases |regions| - i
  {
    if i < |regions| {
      NamedFromMeans(regions, i + 1);
    }
  }

  /** No region of the catalog is named "", so clearing the region select
      empties and disables the commune select. */
  lemma CatalogNamed()
    ensures NamedFrom(REGIONS, 0)
  {
    CatalogNamedFrom4();
  }

  // The catalog is checked a quarter at a time, from the back.
  lemma CatalogNamedFrom4()
    ensures NamedFrom(REGIONS, 4)
  {
    CatalogNamedFrom8();
  }

  lemma CatalogNamedFrom8()
    ensures NamedFrom(REGIONS, 8)
  {
    CatalogNamedFrom12();
  }

  lemma CatalogNamedFrom12()
    ensures NamedFrom(REGIONS, 12)
  {
  }

  lemma NamedFindsNoEmpty(regions: seq<Region>)
    requires NamedFrom(regions, 0)
    ensures FindRegion(regions, "") == None
  {
    NamedFromMeans(regions, 0);
  }

  lemma EmptyRegionFindsNothing()
    ensures FindRegion(REGIONS, "") == None
  {
    CatalogNamed();
    NamedFindsNoEmpty(REGIONS);
  }

  // ---------------------------------------------------------------------------
  // The confirm and success modals
  // ---------------------------------------------------------------------------

  /** Whether each modal carries the `open` class. */
  class Modals {
    var confirmOpen: bool
    var successOpen: bool

    /** Both closed, as the page starts (form.ts:34-37, form.js:30-33). */
    constructor ()
      ensures !confirmOpen && !successOpen
    {
      confirmOpen := false;
      successOpen := false;
    }

    /** The submit button: run the validation pass and open the confirm modal
        when it reports nothing (form.ts:128-169, form.js:123-172). */
    method Submit(s: Snapshot, baselineAttribute: Option<string>) returns (errs: seq<string>)
      modifies this
      ensures errs == Validate(s, OrEmpty(baselineAttribute))
      ensures confirmOpen == (old(confirmOpen) || errs == [])
      ensures successOpen == old(successOpen)
    {
      errs := SubmitErrors(s, baselineAttribute);
      if |errs| == 0 {
        confirmOpen := true;
      }
    }

    /** "Yes": close the confirm modal and open the success modal (form.ts:171-174,
        form.js:173-176). */
    method ConfirmYes()
      modifies this
      ensures !confirmOpen && successOpen
    {
      confirmOpen := false;
      successOpen := true;
    }

    /** "No": close the confirm modal (form.ts:175-177, form.js:177-179). */
    method ConfirmNo()
      modifies this
      ensures !confirmOpen && successOpen == old(successOpen)
    {
      confirmOpen := false;
    }

    /** A key press: Escape closes both modals, any other key changes nothing
        (form.ts:180-185, form.js:181-186). */
    method KeyDown(key: string)
      modifies this
      ensures key == "Escape" ==> !confirmOpen && !successOpen
      ensures key != "Escape" ==> confirmOpen == old(confirmOpen) && successOpen == old(successOpen)
    {
      if key == "Escape" {
        confirmOpen := false;
        successOpen := false;
      }
    }
  }
}
