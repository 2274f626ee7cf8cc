/**
 * The Delivery entity while the walk builds it. Its three links start out null
 * (None) and are NOT NULL columns once saved; setExtras keeps the extras text
 * only when the JSON validator accepts it and stores "{}" otherwise.
 */
module DeliveryEntity {
  import opened Base
  import opened Entities

  /** What setExtras(s) leaves in the extras field, given the validator (a Jackson parse). */
  function StoredExtras(s: string, isValidJson: string -> bool): (r: string)
    ensures r == s || r == "{}"
    ensures r == s <== isValidJson(s)
    ensures !isValidJson(s) ==> r == "{}"
  {
    if isValidJson(s) then s else "{}"
  }

  /** When "{}" itself is valid, whatever setExtras stores is valid. */
  lemma StoredExtrasIsValid(s: string, isValidJson: string -> bool)
    requires isValidJson("{}")
    ensures isValidJson(StoredExtras(s, isValidJson))
  {
  }

  /** setExtras(getExtras()) after a setExtras changes nothing. */
  lemma StoredExtrasIdempotent(s: string, isValidJson: string -> bool)
    ensures StoredExtras(StoredExtras(s, isValidJson), isValidJson) == StoredExtras(s, isValidJson)
  {
  }

  class Delivery {
    var over: Option<nat>
    var inning: Option<nat>
    var matchRef: Option<nat>
    var batter: string
    var bowler: string
    var nonStriker: string
    var runsBatter: int
    var runsExtras: int
    var totalRuns: int
    var extras: string

    /**
     * `new Delivery()`: no links yet. Java leaves the text and Integer fields
     * null; the empty strings and zeros here are placeholders, and the walk sets
     * every one of them, extras through SetExtras, before the row is recorded.
     */
    constructor ()
      ensures over.None? && inning.None? && matchRef.None?
      ensures extras == ""
    {
      over, inning, matchRef := None, None, None;
      batter, bowler, nonStriker := "", "", "";
      runsBatter, runsExtras, totalRuns := 0, 0, 0;
      extras := "";
    }

    /** Delivery.setExtras: only the extras field changes. */
    method SetExtras(s: string, isValidJson: string -> bool)
      modifies this`extras
      ensures extras == StoredExtras(s, isValidJson)
    {
      if isValidJson(s) {
        extras := s;
      } else {
        extras := "{}";
      }
    }

    /** All three mandatory links are set. */
    predicate Linked()
      reads this
    {
      over.Some? && inning.Some? && matchRef.Some?
    }

    /** The row that deliveryRepository.save writes. */
    function Record(): DeliveryRecord
      reads this
      requires Linked()
    {
      DeliveryRecord(over.value, inning.value, matchRef.value, batter, bowler, nonStriker,
                     runsBatter, runsExtras, totalRuns, extras)
    }
  }
}
