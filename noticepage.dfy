/**
 * The notice detail page (notice.ts): the `id` read from the address picks a
 * notice; an unknown id shows a not-found message, a known one a heading,
 * eleven key/value rows, a photo title and a gallery of thumbnails, each of
 * which opens the large photo in a modal.
 */
module NoticePage {
  import opened Wrappers
  import opened JsStrings
  import opened Data
  import opened DataFacts
  import opened Tables

  /** A row built by `buildKV`. */
  datatype KeyValue = KeyValue(key: string, val: string)

  /** The keys of `render`'s rows, in order. */
  const DetailKeys: seq<string> := [
    "Date of publication", "Date of delivery", "Region", "Commune", "Sector",
    "Quantity Type Age", "Name Contact", "Email", "Cellphone", "Preferred method",
    "Description"]

  /** `cm && cm.method ? `${cm.method} ${cm.value || ""}` : "—"` */
  function PreferredMethod(cm: Option<ContactMethod>): (r: string)
  {
    if cm.Some? && cm.value.methodKind != NoMethod
    then MethodName(cm.value.methodKind) + " " + cm.value.value.GetOr("")
    else "—"
  }

  /** `notice.description || "—"` */
  function DescriptionText(description: Option<string>): (r: string)
  {
    if description.Some? && description.value != "" then description.value else "—"
  }

  /** `render`'s key/value rows. */
  function DetailRows(n: Notice): (r: seq<KeyValue>)
    ensures |r| == |DetailKeys| == 11
    ensures forall k | 0 <= k < 11 :: r[k].key == DetailKeys[k]
  {
    [KeyValue("Date of publication", FmtHuman(n.publishedAt)),
     KeyValue("Date of delivery", FmtHuman(n.deliveryAt)),
     KeyValue("Region", n.region),
     KeyValue("Commune", n.commune),
     KeyValue("Sector", n.sector),
     KeyValue("Quantity Type Age", QtyTypeAge(n)),
     KeyValue("Name Contact", n.contactName),
     KeyValue("Email", n.contactEmail),
     KeyValue("Cellphone", n.phone),
     KeyValue("Preferred method", PreferredMethod(n.contactMethod)),
     KeyValue("Description", DescriptionText(n.description))]
  }

  /** A gallery thumbnail: its image and the large image it opens. */
  datatype Thumb = Thumb(small: PhotoRef, large: PhotoRef)

  const PhotosTitle: string := "Photos (320×240; click to view 800×600)"

  /** What `content` shows once the page has loaded. */
  datatype Content =
    | NotFound
    | Detail(heading: string, rows: seq<KeyValue>, photosTitle: string, gallery: seq<Thumb>)

  /** The gallery loop: `photos.count` thumbnails of the pet's kind, none when
      the count is zero or negative. */
  method Gallery(photos: Photos) returns (g: seq<Thumb>)
    ensures |g| == if photos.count > 0 then photos.count else 0
    ensures forall k | 0 <= k < |g| :: g[k].small == PhotoSmall(photos.kind) && g[k].large == PhotoLarge(photos.kind)
  {
    g := [];
    var i := 0;
    while i < photos.count
      invariant 0 <= i <= (if photos.count > 0 then photos.count else 0) && |g| == i
      invariant forall k | 0 <= k < |g| :: g[k] == Thumb(PhotoSmall(photos.kind), PhotoLarge(photos.kind))
    {
      g := g + [Thumb(PhotoSmall(photos.kind), PhotoLarge(photos.kind))];
      i := i + 1;
    }
  }

  /** `render(notice)` */
  method Render(n: Notice) returns (c: Content)
    ensures c.Detail? && c.heading == "Notice #" + n.id && c.rows == DetailRows(n)
    ensures c.photosTitle == PhotosTitle
    ensures |c.gallery| == if n.photos.count > 0 then n.photos.count else 0
    ensures forall k | 0 <= k < |c.gallery| :: c.gallery[k] == Thumb(PhotoSmall(n.photos.kind), PhotoLarge(n.photos.kind))
  {
    var g := Gallery(n.photos);
    c := Detail("Notice #" + n.id, DetailRows(n), PhotosTitle, g);
  }

  /** The `DOMContentLoaded` handler; `idParam` is what the address holds for `id`. */
  method Load(idParam: Option<string>) returns (c: Content)
    ensures c.NotFound? <==> GetNoticeById(OrEmpty(idParam)).None?
    ensures c.Detail? ==>
      GetNoticeById(OrEmpty(idParam)).Some? &&
      c.heading == "Notice #" + GetNoticeById(OrEmpty(idParam)).value.id &&
      c.rows == DetailRows(GetNoticeById(OrEmpty(idParam)).value)
    ensures c.Detail? ==> c.photosTitle == PhotosTitle
    ensures c.Detail? ==>
      var n := GetNoticeById(OrEmpty(idParam)).value;
      && |c.gallery| == (if n.photos.count > 0 then n.photos.count else 0)
      && forall k | 0 <= k < |c.gallery| :: c.gallery[k] == Thumb(PhotoSmall(n.photos.kind), PhotoLarge(n.photos.kind))
  {
    var id := OrEmpty(idParam);
    var found := GetNoticeById(id);
    if found.None? {
      c := NotFound;
    } else {
      c := Render(found.value);
    }
  }

  /** Without an id, or with an empty one, the page shows the not-found message. */
  lemma MissingIdNotFound(idParam: Option<string>)
    requires idParam.None? || idParam.value == ""
    ensures GetNoticeById(OrEmpty(idParam)) == None
  {
    GetNoticeByEmptyId();
  }

  /** The id of a stored notice shows that notice. */
  lemma StoredIdFound(k: nat)
    requires k < |NOTICES|
    ensures GetNoticeById(OrEmpty(Some(NOTICES[k].id))) == Some(NOTICES[k])
  {
    GetNoticeByIdFindsEach(k);
  }

  /** The method row is "—" exactly when there is no method, and otherwise the
      method's name, a blank and the handle ("" when absent). */
  lemma PreferredMethodShown(cm: Option<ContactMethod>)
    ensures PreferredMethod(cm) == "—" <==> cm.None? || cm.value.methodKind == NoMethod
    ensures cm.Some? && cm.value.methodKind != NoMethod ==>
      PreferredMethod(cm) == MethodName(cm.value.methodKind) + " " + cm.value.value.GetOr("")
  {
    if cm.Some? && cm.value.methodKind != NoMethod {
      assert |MethodName(cm.value.methodKind)| >= 1;
      assert |PreferredMethod(cm)| >= 2;
    }
  }

  /** The description row is never empty: the text when there is one, "—" otherwise. */
  lemma DescriptionShown(description: Option<string>)
    ensures DescriptionText(description) != ""
    ensures description.Some? && description.value != "" ==> DescriptionText(description) == description.value
    ensures description.None? || description.value == "" ==> DescriptionText(description) == "—"
  {
  }

  /** On a notice with the stored shapes, both date rows show the timestamp with
      a blank for the `T`. */
  lemma DetailDates(n: Notice)
    requires FieldsShaped(n)
    ensures |n.publishedAt| == 16 && DetailRows(n)[0].val == n.publishedAt[..10] + " " + n.publishedAt[11..]
    ensures |n.deliveryAt| == 16 && DetailRows(n)[1].val == n.deliveryAt[..10] + " " + n.deliveryAt[11..]
  {
    FmtHumanOfDtLocal(n.publishedAt);
    FmtHumanOfDtLocal(n.deliveryAt);
  }

  /** The large-photo modal: whether it is open and the image it shows. */
  class ImageModal {
    var open: bool
    var large: Option<PhotoRef>

    /** Closed and without an image, as the markup declares it. */
    constructor ()
      ensures !open && large == None
    {
      open := false;
      large := None;
    }

    /** A click on a thumbnail: show its large image and open the modal. */
    method ClickThumb(t: Thumb)
      modifies this
      ensures open && large == Some(t.large)
    {
      large := Some(t.large);
      open := true;
    }

    /** The close button: close the modal, keeping its image. */
    method Close()
      modifies this
      ensures !open && large == old(large)
    {
      open := false;
    }

    /** Escape closes the modal; any other key changes nothing. */
    method KeyDown(key: string)
      modifies this
      ensures large == old(large)
      ensures open == (old(open) && key != "Escape")
    {
      if key == "Escape" {
        open := false;
      }
    }
  }
}
