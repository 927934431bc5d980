/**
 * The demo dataset and the shared helpers of data.ts: the region catalog, the
 * five notices, `pad2`, `toLocalDatetimeValue`, `fmtHuman`, the placeholder
 * photos, `getNoticeById` and `lastNNotices`. Everything here is a value:
 * the arrays are never mutated, so the catalog and the notices are constants.
 */
module Data {
  import opened Wrappers
  import opened JsStrings

  // ---------------------------------------------------------------------------
  // Entities
  // ---------------------------------------------------------------------------

  datatype PetType = Dog | Cat

  datatype AgeUnit = Months | Years

  /** The contact methods of the form's select; NoMethod is its empty option. */
  datatype MethodKind = WhatsApp | Telegram | X | Instagram | TikTok | OtherMethod | NoMethod

  datatype ContactMethod = ContactMethod(methodKind: MethodKind, value: Option<string>)

  /** A stand-in for a photo collection: the pet kind and how many photos. */
  datatype Photos = Photos(kind: PetType, count: int)

  datatype Region = Region(name: string, communes: seq<string>)

  datatype Notice = Notice(
    id: string,
    publishedAt: string,   // "YYYY-MM-DDTHH:mm"
    deliveryAt: string,    // "YYYY-MM-DDTHH:mm"
    region: string,
    commune: string,
    sector: string,
    petType: PetType,
    amount: nat,
    age: nat,
    ageUnit: AgeUnit,
    contactName: string,
    contactEmail: string,
    phone: string,         // "+NNN.NNNNNNNN"
    contactMethod: Option<ContactMethod>,
    description: Option<string>,
    photos: Photos)

  /** The string a pet type stands for in the source. */
  function PetTypeName(t: PetType): string
  {
    match t
    case Dog => "dog"
    case Cat => "cat"
  }

  function AgeUnitName(u: AgeUnit): string
  {
    match u
    case Months => "months"
    case Years => "years"
  }

  function MethodName(m: MethodKind): string
  {
    match m
    case WhatsApp => "whatsapp"
    case Telegram => "telegram"
    case X => "x"
    case Instagram => "instagram"
    case TikTok => "tiktok"
    case OtherMethod => "other"
    case NoMethod => ""
  }

  // ---------------------------------------------------------------------------
  // Regions and communes
  // ---------------------------------------------------------------------------

  const REGIONS: seq<Region> := [
    Region("Arica y Parinacota", ["Arica", "Camarones", "Putre", "General Lagos"]),
    Region("Tarapacá", ["Iquique", "Alto Hospicio", "Pozo Almonte", "Pica"]),
    Region("Antofagasta", ["Antofagasta", "Mejillones", "Taltal", "Calama"]),
    Region("Atacama", ["Copiapó", "Caldera", "Vallenar", "Chañaral"]),
    Region("Coquimbo", ["La Serena", "Coquimbo", "Ovalle", "Vicuña"]),
    Region("Valparaíso", ["Valparaíso", "Viña del Mar", "Quilpué", "San Antonio"]),
    Region("Metropolitana de Santiago", ["Santiago", "Providencia", "Las Condes", "Maipú", "Puente Alto"]),
    Region("Libertador Gral. Bernardo O'Higgins", ["Rancagua", "San Fernando", "Santa Cruz", "Rengo"]),
    Region("Maule", ["Talca", "Curicó", "Linares", "Cauquenes"]),
    Region("Ñuble", ["Chillán", "Chillán Viejo", "San Carlos", "Coihueco"]),
    Region("Biobío", ["Concepción", "Talcahuano", "Los Ángeles", "Coronel"]),
    Region("La Araucanía", ["Temuco", "Padre Las Casas", "Villarrica", "Angol"]),
    Region("Los Ríos", ["Valdivia", "La Unión", "Río Bueno", "Panguipulli"]),
    Region("Los Lagos", ["Puerto Montt", "Osorno", "Castro", "Puerto Varas"]),
    Region("Aysén del Gral. C. Ibáñez del Campo", ["Coyhaique", "Puerto Aysén", "Chile Chico", "Cochrane"]),
    Region("Magallanes y de la Antártica Chilena", ["Punta Arenas", "Puerto Natales", "Porvenir", "Cabo de Hornos"])
  ]

  // ---------------------------------------------------------------------------
  // pad2, toLocalDatetimeValue, fmtHuman
  // ---------------------------------------------------------------------------

  /** Leading zeros do not change the value of a digit string. */
  lemma {:induction false} LeadingZerosValue(z: nat, s: string)
    requires AllDigits(s)
    ensures AllDigits(Repeat('0', z) + s)
    ensures DecimalValue(Repeat('0', z) + s) == DecimalValue(s)
  {
    var zs := Repeat('0', z);
    if s == [] {
      assert zs + s == zs;
      if z > 0 {
        assert zs[..z - 1] == Repeat('0', z - 1);
        LeadingZerosValue(z - 1, s);
        assert Repeat('0', z - 1) + s == Repeat('0', z - 1);
      }
    } else {
      var p := s[..|s| - 1];
      LeadingZerosValue(z, p);
      assert (zs + s)[..|zs + s| - 1] == zs + p;
    }
  }

  /** `pad2(n)`: `String(n).padStart(2, "0")`. Always at least two digits that
      read back as `n`; nothing is ever cut off. */
  function Pad2(n: nat): (r: string)
    ensures |r| >= 2 && AllDigits(r) && DecimalValue(r) == n
    ensures |NatToString(n)| <= |r| && r == Repeat('0', |r| - |NatToString(n)|) + NatToString(n)
  {
    var s := NatToString(n);
    var r := PadStart(s, 2, '0');
    LeadingZerosValue(|r| - |s|, s);
    r
  }

  /** The local calendar fields that `toLocalDatetimeValue` reads from a Date:
      `getFullYear()`, `getMonth()` (counted from 0), `getDate()`, `getHours()`,
      `getMinutes()`. */
  datatype DateParts = DateParts(fullYear: nat, month: nat, date: nat, hours: nat, minutes: nat)

  /** `toLocalDatetimeValue(d)`: `YYYY-MM-DDTHH:mm` with zero-padded fields. */
  function ToLocalDatetimeValue(d: DateParts): string
  {
    NatToString(d.fullYear) + "-" + Pad2(d.month + 1) + "-" + Pad2(d.date)
      + "T" + Pad2(d.hours) + ":" + Pad2(d.minutes)
  }

  /** `fmtHuman(s)`: `s.replace("T", " ")`, so only the first `T` becomes a blank. */
  function FmtHuman(dtLocal: string): (r: string)
    ensures |r| == |dtLocal|
    ensures forall k | 0 <= k < |dtLocal| :: r[k] == if k == IndexOf(dtLocal, 'T') then ' ' else dtLocal[k]
  {
    ReplaceFirst(dtLocal, 'T', ' ')
  }

  // ---------------------------------------------------------------------------
  // Placeholder photos
  // ---------------------------------------------------------------------------

  /** The picture `svgDataUrl(label, w, h, fill)` draws: the URL's markup and
      its encoding are not modelled, only what it is made from. */
  datatype PhotoRef = PhotoRef(caption: string, width: nat, height: nat, fill: string)

  /** `kind.toUpperCase()`: the type's name with each lower-case letter
      raised to its capital. */
  function KindLabel(kind: PetType): (r: string)
    ensures |r| == |PetTypeName(kind)|
    ensures forall k | 0 <= k < |r| :: r[k] as int == PetTypeName(kind)[k] as int - 32
  {
    match kind
    case Dog => "DOG"
    case Cat => "CAT"
  }

  /** `photoSmall(kind)`: a 320x240 placeholder captioned with the upper-case
      type and its size, moccasin for cats, light blue otherwise. */
  function PhotoSmall(kind: PetType): (r: PhotoRef)
    ensures r.width == 320 && r.height == 240
    ensures r.fill == if kind == Cat then "moccasin" else "lightblue"
    ensures r.caption == KindLabel(kind) + " 320x240"
  {
    PhotoRef(KindLabel(kind) + " 320x240", 320, 240, if kind == Cat then "moccasin" else "lightblue")
  }

  /** `photoLarge(kind)`: an 800x600 placeholder captioned with the upper-case
      type and its size, peach puff for cats, powder blue otherwise. */
  function PhotoLarge(kind: PetType): (r: PhotoRef)
    ensures r.width == 800 && r.height == 600
    ensures r.fill == if kind == Cat then "peachpuff" else "powderblue"
    ensures r.caption == KindLabel(kind) + " 800x600"
  {
    PhotoRef(KindLabel(kind) + " 800x600", 800, 600, if kind == Cat then "peachpuff" else "powderblue")
  }

  // ---------------------------------------------------------------------------
  // The notices
  // ---------------------------------------------------------------------------

  // The five shipped notices, one constant each, in the order of the `NOTICES` array.
  const N1: Notice := Notice("n1", "2025-08-18T12:00", "2025-08-18T15:00",
      "Metropolitana de Santiago", "Santiago", "Beauchef 850, terraza",
      Cat, 1, 2, Months, "Ana Pérez", "ana.perez@example.com", "+569.12345678",
      Some(ContactMethod(WhatsApp, Some("+56 9 1234 5678"))),
      Some("Friendly 2-month-old kitten found near Beauchef."), Photos(Cat, 2))
  const N2: Notice := Notice("n2", "2025-08-19T09:30", "2025-08-21T10:00",
      "Valparaíso", "Viña del Mar", "Avenida Perú 1000",
      Dog, 2, 1, Years, "Luis Soto", "luis.soto@example.com", "+569.87654321",
      Some(ContactMethod(Telegram, Some("@luis_soto"))),
      Some("Two small mixed-breed dogs, vaccinated."), Photos(Dog, 3))
  const N3: Notice := Notice("n3", "2025-08-20T14:10", "2025-08-23T16:00",
      "Biobío", "Concepción", "Plaza de la Independencia",
      Cat, 3, 5, Months, "María López", "maria.lopez@example.com", "+569.33334444",
      Some(ContactMethod(Instagram, Some("instagram.com/maria_l"))),
      Some("Litter of playful kittens."), Photos(Cat, 1))
  const N4: Notice := Notice("n4", "2025-08-22T08:05", "2025-08-25T11:30",
      "Coquimbo", "La Serena", "Av. Francisco de Aguirre 250",
      Dog, 1, 8, Months, "Pedro González", "pgonzalez@example.com", "+569.22223333",
      Some(ContactMethod(X, Some("x.com/pedrog"))),
      Some("Loyal, medium-sized dog, great with kids."), Photos(Dog, 2))
  const N5: Notice := Notice("n5", "2025-08-24T18:40", "2025-08-27T09:00",
      "Los Lagos", "Puerto Montt", "Costanera, muelle",
      Cat, 1, 2, Years, "Sofía Reyes", "sofia.reyes@example.com", "+569.55556666",
      Some(ContactMethod(OtherMethod, Some("t.me/sofia_r"))),
      Some("Calm adult cat, sterilized, indoor friendly."), Photos(Cat, 2))

  const NOTICES: seq<Notice> := [N1, N2, N3, N4, N5]

  // ---------------------------------------------------------------------------
  // find, getNoticeById
  // ---------------------------------------------------------------------------

  /** `xs.findIndex(p)`: the first position whose element satisfies `p`, or -1. */
  function FindIndex<T>(xs: seq<T>, p: T -> bool): (i: int)
    ensures -1 <= i < |xs|
    ensures 0 <= i ==> p(xs[i])
    ensures forall k | 0 <= k < (if i < 0 then |xs| else i) :: !p(xs[k])
  {
    if xs == [] then -1
    else if p(xs[0]) then 0
    else
      var j := FindIndex(xs[1..], p);
      if j < 0 then -1 else j + 1
  }

  /** `xs.find(p)`: the first element satisfying `p`, or None for `undefined`. */
  function Find<T>(xs: seq<T>, p: T -> bool): Option<T>
  {
    var i := FindIndex(xs, p);
    if i < 0 then None else Some(xs[i])
  }

  /** `getNoticeById(id)` over a list of notices: the first notice with that id,
      and None exactly when no notice has it. */
  function FindById(notices: seq<Notice>, id: string): (r: Option<Notice>)
    ensures r.Some? ==> r.value in notices && r.value.id == id
    ensures r.None? <==> forall k | 0 <= k < |notices| :: notices[k].id != id
  {
    Find(notices, (n: Notice) => n.id == id)
  }

  /** `getNoticeById(id)` */
  function GetNoticeById(id: string): Option<Notice>
  {
    FindById(NOTICES, id)
  }

  /** `REGIONS.find(r => r.name === name)` */
  function FindRegion(regions: seq<Region>, name: string): (r: Option<Region>)
    ensures r.Some? ==> r.value in regions && r.value.name == name
    ensures r.None? <==> forall k | 0 <= k < |regions| :: regions[k].name != name
  {
    Find(regions, (g: Region) => g.name == name)
  }

  // ---------------------------------------------------------------------------
  // lastNNotices
  // ---------------------------------------------------------------------------

  /** Ordered by `publishedAt`, latest first: no notice is earlier than one after it. */
  ghost predicate SortedByPublishedDesc(s: seq<Notice>)
  {
    forall i, j | 0 <= i < j < |s| :: !LexLess(s[i].publishedAt, s[j].publishedAt)
  }

  /** `!(a < b)` is transitive. */
  lemma NotLessTransitive(a: string, b: string, c: string)
    requires !LexLess(a, b) && !LexLess(b, c)
    ensures !LexLess(a, c)
  {
    LexLessTotal(a, b);
    LexLessTotal(b, c);
    if LexLess(a, c) {
      if a != b && b != c {
        LexLessTransitive(c, b, a);
        LexLessAsymmetric(a, c);
      }
    }
  }

  /** One step of a stable sort, latest first: `x` goes before the first notice
      that is not later than it. */
  function InsertByPublished(x: Notice, sorted: seq<Notice>): (r: seq<Notice>)
    ensures |r| == |sorted| + 1
  {
    if sorted == [] || !LexLess(x.publishedAt, sorted[0].publishedAt) then [x] + sorted
    else [sorted[0]] + InsertByPublished(x, sorted[1..])
  }

  /** Inserting adds `x` and loses nothing. */
  lemma {:induction false} InsertByPublishedPermutes(x: Notice, sorted: seq<Notice>)
    ensures multiset(InsertByPublished(x, sorted)) == multiset(sorted) + multiset{x}
  {
    if sorted != [] && LexLess(x.publishedAt, sorted[0].publishedAt) {
      InsertByPublishedPermutes(x, sorted[1..]);
      assert sorted == [sorted[0]] + sorted[1..];
    }
  }

  /** A notice heading a sorted list stays sorted when it is later than or as
      late as all of it. */
  lemma ConsSorted(a: Notice, rest: seq<Notice>)
    requires SortedByPublishedDesc(rest)
    requires forall j | 0 <= j < |rest| :: !LexLess(a.publishedAt, rest[j].publishedAt)
    ensures SortedByPublishedDesc([a] + rest)
  {
    var r := [a] + rest;
    forall i, j | 0 <= i < j < |r| ensures !LexLess(r[i].publishedAt, r[j].publishedAt) {
      assert r[j] == rest[j - 1];
      if i > 0 {
        assert r[i] == rest[i - 1];
      }
    }
  }

  /** The head of a sorted list is as late as any notice of it. */
  lemma HeadIsLatest(x: Notice, sorted: seq<Notice>)
    requires SortedByPublishedDesc(sorted)
    requires sorted == [] || !LexLess(x.publishedAt, sorted[0].publishedAt)
    ensures forall j | 0 <= j < |sorted| :: !LexLess(x.publishedAt, sorted[j].publishedAt)
  {
    forall j | 0 <= j < |sorted| ensures !LexLess(x.publishedAt, sorted[j].publishedAt) {
      if j > 0 {
        NotLessTransitive(x.publishedAt, sorted[0].publishedAt, sorted[j].publishedAt);
      }
    }
  }

  /** When `x` goes further down, the head stays as late as everything after it. */
  lemma HeadBeforeInserted(x: Notice, sorted: seq<Notice>)
    requires SortedByPublishedDesc(sorted)
    requires sorted != [] && LexLess(x.publishedAt, sorted[0].publishedAt)
    ensures forall j | 0 <= j < |InsertByPublished(x, sorted[1..])| ::
      !LexLess(sorted[0].publishedAt, InsertByPublished(x, sorted[1..])[j].publishedAt)
  {
    var tail := sorted[1..];
    var rest := InsertByPublished(x, tail);
    InsertByPublishedPermutes(x, tail);
    forall j | 0 <= j < |rest| ensures !LexLess(sorted[0].publishedAt, rest[j].publishedAt) {
      var y := rest[j];
      assert y in multiset(rest);
      if y == x {
        LexLessAsymmetric(x.publishedAt, sorted[0].publishedAt);
      } else {
        assert y in multiset(tail);
        var k :| 0 <= k < |tail| && tail[k] == y;
        assert sorted[k + 1] == y;
      }
    }
  }

  /** Inserting into a list sorted latest first keeps it sorted. */
  lemma {:induction false} InsertByPublishedSorted(x: Notice, sorted: seq<Notice>)
    requires SortedByPublishedDesc(sorted)
    ensures SortedByPublishedDesc(InsertByPublished(x, sorted))
  {
    if sorted == [] || !LexLess(x.publishedAt, sorted[0].publishedAt) {
      HeadIsLatest(x, sorted);
      ConsSorted(x, sorted);
    } else {
      var tail := sorted[1..];
      assert SortedByPublishedDesc(tail) by {
        forall i, j | 0 <= i < j < |tail| ensures !LexLess(tail[i].publishedAt, tail[j].publishedAt) {
          assert tail[i] == sorted[i + 1] && tail[j] == sorted[j + 1];
        }
      }
      InsertByPublishedSorted(x, tail);
      HeadBeforeInserted(x, sorted);
      ConsSorted(sorted[0], InsertByPublished(x, tail));
    }
  }

  /** `[...s].sort((a, b) => b.publishedAt.localeCompare(a.publishedAt))`:
      a stable insertion sort, latest first, of a copy of `s`. */
  function SortByPublishedDesc(s: seq<Notice>): (r: seq<Notice>)
    ensures |r| == |s|
  {
    if s == [] then [] else InsertByPublished(s[0], SortByPublishedDesc(s[1..]))
  }

  /** The sort orders the notices latest first and keeps each of them. */
  lemma {:induction false} SortByPublishedDescFacts(s: seq<Notice>)
    ensures SortedByPublishedDesc(SortByPublishedDesc(s))
    ensures multiset(SortByPublishedDesc(s)) == multiset(s)
  {
    if s != [] {
      SortByPublishedDescFacts(s[1..]);
      InsertByPublishedSorted(s[0], SortByPublishedDesc(s[1..]));
      InsertByPublishedPermutes(s[0], SortByPublishedDesc(s[1..]));
      assert s == [s[0]] + s[1..];
    }
  }

  /** `lastNNotices(n)` over a list of notices: the first n of the sorted copy. */
  function LastN(s: seq<Notice>, n: nat): (r: seq<Notice>)
    ensures |r| == if n < |s| then n else |s|
  {
    var sorted := SortByPublishedDesc(s);
    if n < |sorted| then sorted[..n] else sorted
  }

  /** A prefix of a sorted list is sorted. */
  lemma PrefixSorted(s: seq<Notice>, n: nat)
    requires SortedByPublishedDesc(s) && n <= |s|
    ensures SortedByPublishedDesc(s[..n])
  {
    var p := s[..n];
    forall i, j | 0 <= i < j < |p| ensures !LexLess(p[i].publishedAt, p[j].publishedAt) {
      assert p[i] == s[i] && p[j] == s[j];
    }
  }

  /** The n latest notices, latest first, drawn from `s`. */
  lemma LastNFacts(s: seq<Notice>, n: nat)
    ensures SortedByPublishedDesc(LastN(s, n))
    ensures multiset(LastN(s, n)) <= multiset(s)
    ensures forall k | 0 <= k < |LastN(s, n)| :: LastN(s, n)[k] in s
  {
    var sorted := SortByPublishedDesc(s);
    SortByPublishedDescFacts(s);
    var r := LastN(s, n);
    PrefixSorted(sorted, |r|);
    assert r == sorted[..|r|];
    assert sorted == r + sorted[|r|..];
    assert multiset(sorted) == multiset(r) + multiset(sorted[|r|..]);
    forall k | 0 <= k < |r| ensures r[k] in s {
      assert r[k] in multiset(s);
    }
  }

  /** No notice left out of `LastN(s, n)` is later than one it keeps. */
  lemma LastNKeepsLatest(s: seq<Notice>, n: nat)
    ensures forall y, k | y in multiset(s) - multiset(LastN(s, n)) && 0 <= k < |LastN(s, n)| ::
      !LexLess(LastN(s, n)[k].publishedAt, y.publishedAt)
  {
    var sorted := SortByPublishedDesc(s);
    SortByPublishedDescFacts(s);
    var r := LastN(s, n);
    var rest := sorted[|r|..];
    assert sorted == r + rest;
    assert multiset(sorted) == multiset(r) + multiset(rest);
    forall y, k | y in multiset(s) - multiset(r) && 0 <= k < |r|
      ensures !LexLess(r[k].publishedAt, y.publishedAt)
    {
      assert y in multiset(rest);
      var j :| 0 <= j < |rest| && rest[j] == y;
      assert sorted[k] == r[k] && sorted[|r| + j] == y;
    }
  }

  /** `lastNNotices(n)` */
  function LastNNotices(n: nat): seq<Notice>
  {
    LastN(NOTICES, n)
  }
}
