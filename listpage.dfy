/**
 * The full listing (list.js): one row per stored notice, in stored order, with
 * seven cells: publication and delivery dates, commune, sector, quantity type
 * age, contact name and the number of photos.
 */
module ListPage {
  import opened JsStrings
  import opened Validators
  import opened Data
  import opened DataFacts
  import opened Tables

  /** The seven cells of a row, in the order of the table's columns. */
  function ListingRow(n: Notice): (r: seq<string>)
    ensures |r| == 7
  {
    [FmtHuman(n.publishedAt), FmtHuman(n.deliveryAt), n.commune, n.sector, QtyTypeAge(n),
     n.contactName, IntToString(n.photos.count)]
  }

  function ListingRows(ns: seq<Notice>): (r: seq<seq<string>>)
    ensures |r| == |ns|
  {
    seq(|ns|, k requires 0 <= k < |ns| => ListingRow(ns[k]))
  }

  /** One more notice gives one more row at the end. */
  lemma ListingRowsSnoc(ns: seq<Notice>, i: nat)
    requires i < |ns|
    ensures ListingRows(ns[..i + 1]) == ListingRows(ns[..i]) + [ListingRow(ns[i])]
  {
    var a := ListingRows(ns[..i + 1]);
    var b := ListingRows(ns[..i]) + [ListingRow(ns[i])];
    assert |a| == |b|;
    forall k | 0 <= k < i + 1 ensures a[k] == b[k] {
      assert ns[..i + 1][k] == ns[k];
      if k < i {
        assert b[k] == ListingRows(ns[..i])[k] == ListingRow(ns[..i][k]);
      }
    }
  }

  /** `NOTICES.forEach(n => { ...; tbody.appendChild(tr); })` */
  method AppendListingRows(tbody: TableBody, notices: seq<Notice>)
    modifies tbody
    ensures tbody.rows == old(tbody.rows) + ListingRows(notices)
  {
    var i := 0;
    while i < |notices|
      invariant 0 <= i <= |notices|
      invariant tbody.rows == old(tbody.rows) + ListingRows(notices[..i])
    {
      tbody.Append(ListingRow(notices[i]));
      ListingRowsSnoc(notices, i);
      i := i + 1;
    }
    assert notices[..i] == notices;
  }

  /** The `DOMContentLoaded` handler: every stored notice, in stored order. */
  method ShowListing(tbody: TableBody)
    modifies tbody
    ensures tbody.rows == old(tbody.rows) + ListingRows(NOTICES)
  {
    AppendListingRows(tbody, NOTICES);
  }

  /** The photo column reads back as the photo count, digits only when the
      count is not negative. */
  lemma PhotoCellReadsBack(n: Notice)
    ensures n.photos.count >= 0 ==> AllDigits(ListingRow(n)[6]) && DecimalValue(ListingRow(n)[6]) == n.photos.count
    ensures n.photos.count < 0 ==> ListingRow(n)[6][0] == '-'
  {
  }

  /** Both date cells of a row with the stored shapes are the timestamps with a
      blank for the `T`. */
  lemma ListingDateCells(n: Notice)
    requires FieldsShaped(n)
    ensures |n.publishedAt| == 16 && ListingRow(n)[0] == n.publishedAt[..10] + " " + n.publishedAt[11..]
    ensures |n.deliveryAt| == 16 && ListingRow(n)[1] == n.deliveryAt[..10] + " " + n.deliveryAt[11..]
  {
    FmtHumanOfDtLocal(n.publishedAt);
    FmtHumanOfDtLocal(n.deliveryAt);
  }

  /** The listing has one row for each of the five stored notices, and each
      row's dates are that notice's timestamps with a blank for the `T`. */
  lemma ListingRowsFacts()
    ensures |ListingRows(NOTICES)| == 5
    ensures forall k | 0 <= k < 5 :: |NOTICES[k].publishedAt| == 16 && |NOTICES[k].deliveryAt| == 16
    ensures forall k | 0 <= k < 5 ::
      ListingRows(NOTICES)[k][0] == NOTICES[k].publishedAt[..10] + " " + NOTICES[k].publishedAt[11..]
    ensures forall k | 0 <= k < 5 ::
      ListingRows(NOTICES)[k][1] == NOTICES[k].deliveryAt[..10] + " " + NOTICES[k].deliveryAt[11..]
  {
    NoticeFieldShapes();
    forall k | 0 <= k < 5
      ensures |NOTICES[k].publishedAt| == 16 && |NOTICES[k].deliveryAt| == 16
      ensures ListingRows(NOTICES)[k][0] == NOTICES[k].publishedAt[..10] + " " + NOTICES[k].publishedAt[11..]
      ensures ListingRows(NOTICES)[k][1] == NOTICES[k].deliveryAt[..10] + " " + NOTICES[k].deliveryAt[11..]
    {
      ListingDateCells(NOTICES[k]);
    }
  }
}
