/**
 * The home page (index.ts): a table of the five latest notices, one row per
 * notice with its publication date, commune, sector, quantity type age and a
 * made-up photo file name.
 */
module HomePage {
  import opened JsStrings
  import opened Validators
  import opened Data
  import opened DataFacts
  import opened Tables

  /** `(n.type === "cat" ? "cat" : "dog") + "_photo.jpg"` */
  function InventedFile(t: PetType): (r: string)
    ensures |r| > 10 && r[|r| - 10..] == "_photo.jpg"
  {
    (if t == Cat then "cat" else "dog") + "_photo.jpg"
  }

  /** The invented file is named after the pet type. */
  lemma InventedFileNamesType(t: PetType)
    ensures InventedFile(t) == PetTypeName(t) + "_photo.jpg"
  {
  }

  /** The five cells of a row, in the order of the table's columns. */
  function RecentRow(n: Notice): (r: seq<string>)
    ensures |r| == 5
  {
    [FmtHuman(n.publishedAt), n.commune, n.sector, QtyTypeAge(n), InventedFile(n.petType)]
  }

  function RecentRows(ns: seq<Notice>): (r: seq<seq<string>>)
    ensures |r| == |ns|
  {
    seq(|ns|, k requires 0 <= k < |ns| => RecentRow(ns[k]))
  }

  /** One more notice gives one more row at the end. */
  lemma RecentRowsSnoc(ns: seq<Notice>, i: nat)
    requires i < |ns|
    ensures RecentRows(ns[..i + 1]) == RecentRows(ns[..i]) + [RecentRow(ns[i])]
  {
    var a := RecentRows(ns[..i + 1]);
    var b := RecentRows(ns[..i]) + [RecentRow(ns[i])];
    assert |a| == |b|;
    forall k | 0 <= k < i + 1 ensures a[k] == b[k] {
      assert ns[..i + 1][k] == ns[k];
      if k < i {
        assert b[k] == RecentRows(ns[..i])[k] == RecentRow(ns[..i][k]);
      }
    }
  }

  /** `rows.forEach(n => { ...; tbody.appendChild(tr); })` */
  method AppendRecentRows(tbody: TableBody, rows: seq<Notice>)
    modifies tbody
    ensures tbody.rows == old(tbody.rows) + RecentRows(rows)
  {
    var i := 0;
    while i < |rows|
      invariant 0 <= i <= |rows|
      invariant tbody.rows == old(tbody.rows) + RecentRows(rows[..i])
    {
      tbody.Append(RecentRow(rows[i]));
      RecentRowsSnoc(rows, i);
      i := i + 1;
    }
    assert rows[..i] == rows;
  }

  /** The `DOMContentLoaded` handler: one row per notice of `lastNNotices(5)`,
      appended in that order. */
  method ShowRecent(tbody: TableBody)
    modifies tbody
    ensures tbody.rows == old(tbody.rows) + RecentRows(LastNNotices(5))
  {
    AppendRecentRows(tbody, LastNNotices(5));
  }

  /** The date cell of each row is the notice's timestamp with a blank for the
      `T`, when the timestamp has the stored shape. */
  lemma RecentDateCells(ns: seq<Notice>)
    requires forall k | 0 <= k < |ns| :: FieldsShaped(ns[k])
    ensures forall k | 0 <= k < |ns| ::
      |ns[k].publishedAt| == 16 && RecentRows(ns)[k][0] == ns[k].publishedAt[..10] + " " + ns[k].publishedAt[11..]
  {
    forall k | 0 <= k < |ns|
      ensures |ns[k].publishedAt| == 16 && RecentRows(ns)[k][0] == ns[k].publishedAt[..10] + " " + ns[k].publishedAt[11..]
    {
      FmtHumanOfDtLocal(ns[k].publishedAt);
    }
  }

  /** Never more than five rows, from stored notices, latest first, each date
      cell the stored timestamp with a blank for the `T`. */
  lemma RecentRowsFacts()
    ensures |RecentRows(LastNNotices(5))| <= 5
    ensures SortedByPublishedDesc(LastNNotices(5))
    ensures forall k | 0 <= k < |LastNNotices(5)| :: LastNNotices(5)[k] in NOTICES
    ensures forall k | 0 <= k < |LastNNotices(5)| ::
      |LastNNotices(5)[k].publishedAt| == 16 &&
      RecentRows(LastNNotices(5))[k][0] == LastNNotices(5)[k].publishedAt[..10] + " " + LastNNotices(5)[k].publishedAt[11..]
  {
    var ns := LastNNotices(5);
    LastNFacts(NOTICES, 5);
    forall k | 0 <= k < |ns| ensures FieldsShaped(ns[k]) {
      StoredNoticeShaped(ns[k]);
    }
    RecentDateCells(ns);
  }
}
