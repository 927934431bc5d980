/**
 * The delivery input of the adoption form, prefilled when the page loads with
 * the local time three hours from now, which also becomes its
 * `data-baseline` attribute.
 */
module DeliveryPrefill {
  import opened Wrappers
  import opened JsStrings
  import opened Validators
  import opened Data
  import opened FormValidation
  import opened DataFacts
  import opened ValidationFacts

  /** The delivery input: what it holds and its `data-baseline` attribute. */
  class DeliveryInput {
    var value: string
    var baseline: Option<string>

    /** Empty and without a baseline, as the markup declares it. */
    constructor ()
      ensures value == "" && baseline == None
    {
      value := "";
      baseline := None;
    }

    /** `prefillDelivery()`. The clock is a parameter: `later` is the local
        date of now plus three hours (form.ts:65-71, form.js:61-66). */
    method Prefill(later: DateParts)
      modifies this
      ensures value == ToLocalDatetimeValue(later)
      ensures baseline == Some(value)
    {
      value := ToLocalDatetimeValue(later);
      baseline := Some(value);
    }
  }

  /** With month, day, hour and minute below 100, the prefilled value is the
      year's numeral and twelve more characters. */
  lemma PrefillLength(d: DateParts)
    requires d.month + 1 < 100 && d.date < 100 && d.hours < 100 && d.minutes < 100
    ensures |ToLocalDatetimeValue(d)| == |NatToString(d.fullYear)| + 12
  {
    Pad2TwoDigits(d.month + 1);
    Pad2TwoDigits(d.date);
    Pad2TwoDigits(d.hours);
    Pad2TwoDigits(d.minutes);
  }

  /** With month, day, hour and minute below 100, the prefilled value has the
      shape the form asks for exactly when the year has four digits. */
  lemma PrefillShapeNeedsFourDigitYear(d: DateParts)
    requires d.month + 1 < 100 && d.date < 100 && d.hours < 100 && d.minutes < 100
    ensures IsDtLocalFormat(ToLocalDatetimeValue(d)) <==> 1000 <= d.fullYear <= 9999
  {
    if 1000 <= d.fullYear <= 9999 {
      ToLocalDatetimeValueShape(d);
    } else {
      PrefillLength(d);
      if d.fullYear < 10 {
        NatToStringLength(d.fullYear, 1);
      } else if d.fullYear < 100 {
        NatToStringLength(d.fullYear, 2);
      } else if d.fullYear < 1000 {
        NatToStringLength(d.fullYear, 3);
      } else {
        NatToStringAtLeast(d.fullYear, 4);
      }
    }
  }

  /** A form whose delivery still holds the prefilled value passes both
      delivery checks against the baseline the prefill stored. */
  lemma PrefilledDeliveryAccepted(later: DateParts, s: Snapshot)
    requires 1000 <= later.fullYear <= 9999
    requires later.month + 1 < 100 && later.date < 100 && later.hours < 100 && later.minutes < 100
    requires s.delivery == ToLocalDatetimeValue(later)
    ensures FailedAmong(s, OrEmpty(Some(ToLocalDatetimeValue(later))), DeliveryChecks) == []
  {
    ToLocalDatetimeValueShape(later);
    DtLocalHasNoBlanks(s.delivery);
    DeliveryAtBaselineAccepted(s);
  }
}
