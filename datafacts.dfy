/**
 * What data.ts promises about its helpers and its fixed tables: `pad2` and
 * `toLocalDatetimeValue` produce the `YYYY-MM-DDTHH:mm` shape the form checks,
 * `fmtHuman` only turns the first `T` into a blank, the five notices have
 * well-shaped timestamps and phones and distinct ids, and `lastNNotices(5)`
 * lists them latest first.
 */
module DataFacts {
  import opened Wrappers
  import opened JsStrings
  import opened Validators
  import opened Data

  // ---------------------------------------------------------------------------
  // pad2
  // ---------------------------------------------------------------------------

  /** A one-digit number gets a leading zero. */
  lemma Pad2Small(n: nat)
    requires n <= 9
    ensures Pad2(n) == ['0', DigitChar(n)]
  {
    assert NatToString(n) == [DigitChar(n)];
    assert PadStart([DigitChar(n)], 2, '0') == PadStart(['0', DigitChar(n)], 2, '0');
  }

  /** From 10 on, `pad2` is the plain numeral and cuts nothing off. */
  lemma Pad2Large(n: nat)
    requires n >= 10
    ensures Pad2(n) == NatToString(n)
  {
    assert |NatToString(n)| >= 2;
  }

  /** Below 100, `pad2` yields exactly two digits. */
  lemma Pad2TwoDigits(n: nat)
    requires n < 100
    ensures |Pad2(n)| == 2
  {
    if n <= 9 {
      Pad2Small(n);
    } else {
      Pad2Large(n);
      NatToStringLength(n, 2);
    }
  }

  // ---------------------------------------------------------------------------
  // toLocalDatetimeValue
  // ---------------------------------------------------------------------------

  /** Four digits and four pairs of digits, joined by `-`, `-`, `T` and `:`,
      have the delivery shape. */
  lemma DtLocalOfParts(y: string, mo: string, da: string, h: string, mi: string)
    requires |y| == 4 && |mo| == 2 && |da| == 2 && |h| == 2 && |mi| == 2
    requires AllDigits(y) && AllDigits(mo) && AllDigits(da) && AllDigits(h) && AllDigits(mi)
    ensures IsDtLocalFormat(y + "-" + mo + "-" + da + "T" + h + ":" + mi)
  {
    var v := y + "-" + mo + "-" + da + "T" + h + ":" + mi;
    assert v[0..4] == y && v[5..7] == mo && v[8..10] == da && v[11..13] == h && v[14..16] == mi;
    assert v[4] == '-' && v[7] == '-' && v[10] == 'T' && v[13] == ':';
    DtLocalExactly(v);
  }

  /** A four-digit year and month, day, hour and minute below 100 (the month
      counted from 0, as `getMonth()` does) give a value `isDtLocalFormat`
      accepts. */
  lemma ToLocalDatetimeValueShape(d: DateParts)
    requires 1000 <= d.fullYear <= 9999
    requires d.month + 1 < 100 && d.date < 100 && d.hours < 100 && d.minutes < 100
    ensures IsDtLocalFormat(ToLocalDatetimeValue(d))
  {
    DateFieldsShape(d);
  }

  lemma DateFieldsShape(d: DateParts)
    requires 1000 <= d.fullYear <= 9999
    requires d.month + 1 < 100 && d.date < 100 && d.hours < 100 && d.minutes < 100
    ensures IsDtLocalFormat(NatToString(d.fullYear) + "-" + Pad2(d.month + 1) + "-" + Pad2(d.date)
      + "T" + Pad2(d.hours) + ":" + Pad2(d.minutes))
  {
    NatToStringLength(d.fullYear, 4);
    Pad2TwoDigits(d.month + 1);
    Pad2TwoDigits(d.date);
    Pad2TwoDigits(d.hours);
    Pad2TwoDigits(d.minutes);
    DtLocalOfParts(NatToString(d.fullYear), Pad2(d.month + 1), Pad2(d.date), Pad2(d.hours), Pad2(d.minutes));
  }

  /** A value of the delivery shape holds no white space, so trimming keeps it. */
  lemma DtLocalHasNoBlanks(v: string)
    requires IsDtLocalFormat(v)
    ensures NoWs(v) && Trim(v) == v
  {
    forall k | 0 <= k < |v| ensures !IsWs(v[k]) {
      assert DtLocalTemplate[k] == 'D' || DtLocalTemplate[k] in "-T:";
    }
    TrimOfBlankFree(v);
  }

  // ---------------------------------------------------------------------------
  // fmtHuman
  // ---------------------------------------------------------------------------

  /** A string without `T` is left as it is. */
  lemma FmtHumanWithoutT(s: string)
    requires forall k | 0 <= k < |s| :: s[k] != 'T'
    ensures FmtHuman(s) == s
  {
    assert IndexOf(s, 'T') == -1;
  }

  /** Only the first `T` changes: everything before it and after it is kept. */
  lemma FmtHumanFirstT(s: string, i: nat)
    requires i < |s| && s[i] == 'T' && forall k | 0 <= k < i :: s[k] != 'T'
    ensures FmtHuman(s) == s[..i] + " " + s[i + 1..]
  {
    assert IndexOf(s, 'T') == i;
  }

  /** On a value of the delivery shape, the `T` between date and time becomes a blank. */
  lemma FmtHumanOfDtLocal(v: string)
    requires IsDtLocalFormat(v)
    ensures FmtHuman(v) == v[..10] + " " + v[11..]
  {
    forall k | 0 <= k < 10 ensures v[k] != 'T' {
      assert DtLocalTemplate[k] == 'D' || DtLocalTemplate[k] == '-';
    }
    FmtHumanFirstT(v, 10);
  }

  // ---------------------------------------------------------------------------
  // The notices, checked position by position
  // ---------------------------------------------------------------------------

  /** Sixteen characters with digits everywhere except `-` at 4 and 7, `T` at 10
      and `:` at 13 have the delivery shape. */
  lemma DtLocalByPositions(v: string)
    requires |v| == 16
    requires IsDigit(v[0]) && IsDigit(v[1]) && IsDigit(v[2]) && IsDigit(v[3]) && v[4] == '-'
    requires IsDigit(v[5]) && IsDigit(v[6]) && v[7] == '-' && IsDigit(v[8]) && IsDigit(v[9])
    requires v[10] == 'T' && IsDigit(v[11]) && IsDigit(v[12]) && v[13] == ':'
    requires IsDigit(v[14]) && IsDigit(v[15])
    ensures IsDtLocalFormat(v)
  {
    var t := DtLocalTemplate;
    assert forall k | 0 <= k < 16 :: (t[k] != 'D' <==> k == 4 || k == 7 || k == 10 || k == 13);
    assert t[4] == '-' && t[7] == '-' && t[10] == 'T' && t[13] == ':';
  }

  /** Thirteen characters with `+` at 0, `.` at 4 and digits elsewhere have the
      cell-phone shape. */
  lemma CellByPositions(v: string)
    requires |v| == 13 && v[0] == '+' && v[4] == '.'
    requires IsDigit(v[1]) && IsDigit(v[2]) && IsDigit(v[3])
    requires IsDigit(v[5]) && IsDigit(v[6]) && IsDigit(v[7]) && IsDigit(v[8])
    requires IsDigit(v[9]) && IsDigit(v[10]) && IsDigit(v[11]) && IsDigit(v[12])
    ensures IsCellOk(v)
  {
    var t := CellTemplate;
    assert forall k | 0 <= k < 13 :: (t[k] != 'D' <==> k == 0 || k == 4);
    assert t[0] == '+' && t[4] == '.';
  }

  /** The shapes stated next to the notice fields. */
  predicate FieldsShaped(n: Notice)
  {
    IsDtLocalFormat(n.publishedAt) && IsDtLocalFormat(n.deliveryAt) && IsCellOk(n.phone)
  }

  /** `LexLess(a[i..], b[i..])`, one position at a time. */
  predicate LexLessFrom(a: string, b: string, i: nat)
    decreases |a| - i
  {
    if i >= |b| then false
    else if i >= |a| then true
    else if a[i] != b[i] then a[i] < b[i]
    else LexLessFrom(a, b, i + 1)
  }

  lemma {:induction false} LexLessFromMeans(a: string, b: string, i: nat)
    requires i <= |a| && i <= |b|
    ensures LexLessFrom(a, b, i) == LexLess(a[i..], b[i..])
    decreases |a| - i
  {
    if i < |a| && i < |b| && a[i] == b[i] {
      LexLessFromMeans(a, b, i + 1);
      assert a[i..][1..] == a[i + 1..] && b[i..][1..] == b[i + 1..];
    }
  }

  lemma PublishedBefore(a: Notice, b: Notice)
    requires LexLessFrom(a.publishedAt, b.publishedAt, 0)
    ensures LexLess(a.publishedAt, b.publishedAt)
  {
    LexLessFromMeans(a.publishedAt, b.publishedAt, 0);
    assert a.publishedAt[0..] == a.publishedAt && b.publishedAt[0..] == b.publishedAt;
  }

  // Each stored notice is checked in a proof of its own: the five together are
  // more than the solver handles in one proof.
  lemma Notice1Checked()
    ensures FieldsShaped(N1)
  {
    DtLocalByPositions(N1.publishedAt);
    DtLocalByPositions(N1.deliveryAt);
    CellByPositions(N1.phone);
  }

  lemma Notice2Checked()
    ensures FieldsShaped(N2)
  {
    DtLocalByPositions(N2.publishedAt);
    DtLocalByPositions(N2.deliveryAt);
    CellByPositions(N2.phone);
  }

  lemma Notice3Checked()
    ensures FieldsShaped(N3)
  {
    DtLocalByPositions(N3.publishedAt);
    DtLocalByPositions(N3.deliveryAt);
    CellByPositions(N3.phone);
  }

  lemma Notice4Checked()
    ensures FieldsShaped(N4)
  {
    DtLocalByPositions(N4.publishedAt);
    DtLocalByPositions(N4.deliveryAt);
    CellByPositions(N4.phone);
  }

  lemma Notice5Checked()
    ensures FieldsShaped(N5)
  {
    DtLocalByPositions(N5.publishedAt);
    DtLocalByPositions(N5.deliveryAt);
    CellByPositions(N5.phone);
  }

  // Each notice is checked by evaluation to be published before the next one.
  lemma Notice1BeforeNotice2()
    ensures LexLess(N1.publishedAt, N2.publishedAt)
  {
    PublishedBefore(N1, N2);
  }

  lemma Notice2BeforeNotice3()
    ensures LexLess(N2.publishedAt, N3.publishedAt)
  {
    PublishedBefore(N2, N3);
  }

  lemma Notice3BeforeNotice4()
    ensures LexLess(N3.publishedAt, N4.publishedAt)
  {
    PublishedBefore(N3, N4);
  }

  lemma Notice4BeforeNotice5()
    ensures LexLess(N4.publishedAt, N5.publishedAt)
  {
    PublishedBefore(N4, N5);
  }

  /** Every notice's `publishedAt` and `deliveryAt` have the `YYYY-MM-DDTHH:mm`
      shape and every phone the `+NNN.NNNNNNNN` shape, as the field comments say. */
  lemma NoticeFieldShapes()
    ensures forall k | 0 <= k < |NOTICES| :: FieldsShaped(NOTICES[k])
  {
    forall k | 0 <= k < |NOTICES| ensures FieldsShaped(NOTICES[k]) {
      if k == 0 {
        Notice1Checked();
      } else if k == 1 {
        Notice2Checked();
      } else if k == 2 {
        Notice3Checked();
      } else if k == 3 {
        Notice4Checked();
      } else {
        Notice5Checked();
      }
    }
  }

  /** Any stored notice has the shapes of the field comments. */
  lemma StoredNoticeShaped(x: Notice)
    requires x in NOTICES
    ensures FieldsShaped(x)
  {
    NoticeFieldShapes();
    var j :| 0 <= j < |NOTICES| && NOTICES[j] == x;
  }

  /** The notices are stored oldest first: each is published before the next. */
  lemma NoticesStoredOldestFirst()
    ensures LexLess(N1.publishedAt, N2.publishedAt) && LexLess(N2.publishedAt, N3.publishedAt)
    ensures LexLess(N3.publishedAt, N4.publishedAt) && LexLess(N4.publishedAt, N5.publishedAt)
  {
    Notice1BeforeNotice2();
    Notice2BeforeNotice3();
    Notice3BeforeNotice4();
    Notice4BeforeNotice5();
  }

  /** The ids of the stored notices, in order. */
  function Ids(notices: seq<Notice>): (r: seq<string>)
    ensures |r| == |notices| && forall k | 0 <= k < |notices| :: r[k] == notices[k].id
  {
    seq(|notices|, k requires 0 <= k < |notices| => notices[k].id)
  }

  /** The ids are n1 to n5, so no two notices share one and none is empty. */
  lemma NoticeIds()
    ensures Ids(NOTICES) == ["n1", "n2", "n3", "n4", "n5"]
    ensures forall i, j | 0 <= i < j < |NOTICES| :: NOTICES[i].id != NOTICES[j].id
    ensures forall k | 0 <= k < |NOTICES| :: NOTICES[k].id != ""
  {
    var ids := Ids(NOTICES);
    assert ids == ["n1", "n2", "n3", "n4", "n5"];
    forall i, j | 0 <= i < j < |NOTICES| ensures NOTICES[i].id != NOTICES[j].id {
      assert ids[i][1] != ids[j][1];
    }
  }

  // ---------------------------------------------------------------------------
  // getNoticeById
  // ---------------------------------------------------------------------------

  /** With distinct ids, looking up a notice's id finds that notice. */
  lemma FindByIdFindsEach(notices: seq<Notice>, k: nat)
    requires k < |notices|
    requires forall i, j | 0 <= i < j < |notices| :: notices[i].id != notices[j].id
    ensures FindById(notices, notices[k].id) == Some(notices[k])
  {
    var r := FindById(notices, notices[k].id);
    assert r.Some?;
    var j :| 0 <= j < |notices| && notices[j] == r.value;
    assert notices[j].id == notices[k].id;
    assert j == k;
  }

  /** `getNoticeById` finds each of the five notices by its id. */
  lemma GetNoticeByIdFindsEach(k: nat)
    requires k < |NOTICES|
    ensures GetNoticeById(NOTICES[k].id) == Some(NOTICES[k])
  {
    NoticeIds();
    FindByIdFindsEach(NOTICES, k);
  }

  /** No notice has the empty id, so a page without an id finds nothing. */
  lemma GetNoticeByEmptyId()
    ensures GetNoticeById("") == None
  {
    NoticeIds();
  }

  // ---------------------------------------------------------------------------
  // lastNNotices
  // ---------------------------------------------------------------------------

  function Reversed(s: seq<Notice>): (r: seq<Notice>)
    ensures |r| == |s| && forall k | 0 <= k < |s| :: r[k] == s[|s| - 1 - k]
  {
    if s == [] then [] else Reversed(s[1..]) + [s[0]]
  }

  /** A notice published before every notice of the list goes last. */
  lemma {:induction false} InsertEarliest(x: Notice, sorted: seq<Notice>)
    requires forall j | 0 <= j < |sorted| :: LexLess(x.publishedAt, sorted[j].publishedAt)
    ensures InsertByPublished(x, sorted) == sorted + [x]
  {
    if sorted != [] {
      InsertEarliest(x, sorted[1..]);
      assert [sorted[0]] + (sorted[1..] + [x]) == sorted + [x];
    }
  }

  /** Notices strictly ascending by `publishedAt` sort into the reverse order. */
  lemma {:induction false} SortAscendingReverses(s: seq<Notice>)
    requires forall k | 0 <= k < |s| - 1 :: LexLess(s[k].publishedAt, s[k + 1].publishedAt)
    ensures SortByPublishedDesc(s) == Reversed(s)
  {
    if s != [] {
      var tail := s[1..];
      SortAscendingReverses(tail);
      forall j | 0 <= j < |tail| ensures LexLess(s[0].publishedAt, Reversed(tail)[j].publishedAt) {
        AscendingBelow(s, |tail| - j);
      }
      InsertEarliest(s[0], Reversed(tail));
    }
  }

  /** In a strictly ascending list, the first notice is earlier than the one at `m`. */
  lemma {:induction false} AscendingBelow(s: seq<Notice>, m: nat)
    requires forall k | 0 <= k < |s| - 1 :: LexLess(s[k].publishedAt, s[k + 1].publishedAt)
    requires 0 < m < |s|
    ensures LexLess(s[0].publishedAt, s[m].publishedAt)
  {
    if m > 1 {
      AscendingBelow(s, m - 1);
      LexLessTransitive(s[0].publishedAt, s[m - 1].publishedAt, s[m].publishedAt);
    }
  }

  /** Five notices published one after the other sort into the reverse order. */
  lemma SortFiveAscending(a: Notice, b: Notice, c: Notice, d: Notice, e: Notice)
    requires LexLess(a.publishedAt, b.publishedAt) && LexLess(b.publishedAt, c.publishedAt)
    requires LexLess(c.publishedAt, d.publishedAt) && LexLess(d.publishedAt, e.publishedAt)
    ensures SortByPublishedDesc([a, b, c, d, e]) == [e, d, c, b, a]
  {
    var s := [a, b, c, d, e];
    forall k | 0 <= k < |s| - 1 ensures LexLess(s[k].publishedAt, s[k + 1].publishedAt) {
    }
    SortAscendingReverses(s);
    assert Reversed(s) == [e, d, c, b, a];
  }

  /** The home page's five rows are the notices latest first. */
  lemma LastFiveNotices()
    ensures LastNNotices(5) == [N5, N4, N3, N2, N1]
  {
    NoticesStoredOldestFirst();
    SortFiveAscending(N1, N2, N3, N4, N5);
  }

  /** By id, the home page lists n5, n4, n3, n2, n1. */
  lemma LastFiveNoticeIds()
    ensures Ids(LastNNotices(5)) == ["n5", "n4", "n3", "n2", "n1"]
  {
    LastFiveNotices();
  }
}
