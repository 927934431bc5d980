/**
 * The sixteen messages of the submit handler are pairwise different: each is
 * recognised by its length and, for the two of twenty characters, its first
 * character.
 */
module MessageFacts {
  import opened Wrappers
  import opened FormValidation

  /** The length of each message. */
  function MessageLength(c: Check): nat
  {
    match c
    case Region => 19
    case Commune => 20
    case Sector => 25
    case Name => 42
    case Email => 58
    case Cell => 57
    case ContactId => 33
    case PetType => 34
    case Amount => 30
    case Age => 27
    case AgeUnit => 39
    case DeliveryFormat => 46
    case DeliveryOrder => 59
    case NoPhotoInput => 65
    case NoPhotoSelected => 38
    case TooManyPhotos => 20
  }

  /** The check a message of this length and first character belongs to; only
      the two twenty-character messages need the first character. */
  function CheckOfShape(length: nat, first: char): Option<Check>
  {
    if length == 19 then Some(Region)
    else if length == 20 then (if first == 'C' then Some(Commune) else Some(TooManyPhotos))
    else if length == 25 then Some(Sector)
    else if length == 42 then Some(Name)
    else if length == 58 then Some(Email)
    else if length == 57 then Some(Cell)
    else if length == 33 then Some(ContactId)
    else if length == 34 then Some(PetType)
    else if length == 30 then Some(Amount)
    else if length == 27 then Some(Age)
    else if length == 39 then Some(AgeUnit)
    else if length == 46 then Some(DeliveryFormat)
    else if length == 59 then Some(DeliveryOrder)
    else if length == 65 then Some(NoPhotoInput)
    else if length == 38 then Some(NoPhotoSelected)
    else None
  }

  lemma LocationMessageShapes(c: Check)
    requires Section(c) == 0
    ensures |MessageText(c)| == MessageLength(c) && CheckOfShape(MessageLength(c), MessageText(c)[0]) == Some(c)
  {
  }

  lemma NameEmailMessageShapes(c: Check)
    requires c == Name || c == Email
    ensures |MessageText(c)| == MessageLength(c) && CheckOfShape(MessageLength(c), MessageText(c)[0]) == Some(c)
  {
  }

  lemma CellContactIdMessageShapes(c: Check)
    requires c == Cell || c == ContactId
    ensures |MessageText(c)| == MessageLength(c) && CheckOfShape(MessageLength(c), MessageText(c)[0]) == Some(c)
  {
  }

  lemma PetMessageShapes(c: Check)
    requires Section(c) == 2
    ensures |MessageText(c)| == MessageLength(c) && CheckOfShape(MessageLength(c), MessageText(c)[0]) == Some(c)
  {
  }

  lemma DeliveryMessageShapes(c: Check)
    requires Section(c) == 3
    ensures |MessageText(c)| == MessageLength(c) && CheckOfShape(MessageLength(c), MessageText(c)[0]) == Some(c)
  {
  }

  lemma PhotoMessageShapes(c: Check)
    requires Section(c) == 4
    ensures |MessageText(c)| == MessageLength(c) && CheckOfShape(MessageLength(c), MessageText(c)[0]) == Some(c)
  {
  }

  /** Every message is recognised by its length and first character. */
  lemma MessageShape(c: Check)
    ensures |MessageText(c)| == MessageLength(c) && CheckOfShape(MessageLength(c), MessageText(c)[0]) == Some(c)
  {
    match Section(c)
    case 0 => LocationMessageShapes(c);
    case 1 => if c == Name || c == Email { NameEmailMessageShapes(c); } else { CellContactIdMessageShapes(c); }
    case 2 => PetMessageShapes(c);
    case 3 => DeliveryMessageShapes(c);
    case 4 => PhotoMessageShapes(c);
  }

  /** Different checks have different messages. */
  lemma MessageTextInjective(c: Check, d: Check)
    requires MessageText(c) == MessageText(d)
    ensures c == d
  {
    MessageShape(c);
    MessageShape(d);
  }

}
