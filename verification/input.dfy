/**
 * The range-checked prompt.  The source reads lines until one parses as an
 * integer within [minVal, maxVal]; here the lines arrive as a finite
 * sequence of attempts, each already parsed: Some(n) for a line that reads
 * as the integer n, None for a line that does not.
 */
module Input {
  import opened Wrappers

  predicate Accepted(attempt: Option<int>, minVal: int, maxVal: int) {
    attempt.Some? && minVal <= attempt.value <= maxVal
  }

  /** Position of the first attempt the prompt accepts, if any. */
  function FirstAccepted(attempts: seq<Option<int>>, minVal: int, maxVal: int): (k: Option<nat>)
    ensures k.Some? ==> k.value < |attempts| && Accepted(attempts[k.value], minVal, maxVal)
    ensures k.Some? ==> forall j :: 0 <= j < k.value ==> !Accepted(attempts[j], minVal, maxVal)
    ensures k.None? <==> forall j :: 0 <= j < |attempts| ==> !Accepted(attempts[j], minVal, maxVal)
  {
    if |attempts| == 0 then None
    else if Accepted(attempts[0], minVal, maxVal) then Some(0)
    else
      match FirstAccepted(attempts[1..], minVal, maxVal)
      case None => None
      case Some(k) => Some(k + 1)
  }

  /** The value the prompt finally returns, or None when the attempts run out first. */
  function Validated(attempts: seq<Option<int>>, minVal: int, maxVal: int): (v: Option<int>)
    ensures v.Some? ==> minVal <= v.value <= maxVal && v in attempts
    ensures v.None? <==> forall j :: 0 <= j < |attempts| ==> !Accepted(attempts[j], minVal, maxVal)
  {
    match FirstAccepted(attempts, minVal, maxVal)
    case None => None
    case Some(k) => attempts[k]
  }

  /**
   * Reads attempts in order until one is an integer within the bounds;
   * `consumed` is how many attempts were read.
   */
  method ValidateInput(attempts: seq<Option<int>>, minVal: int, maxVal: int) returns (value: Option<int>, consumed: nat)
    ensures value == Validated(attempts, minVal, maxVal)
    ensures value.Some? ==> minVal <= value.value <= maxVal
    ensures consumed <= |attempts|
    ensures value.Some? ==> consumed >= 1 && attempts[consumed - 1] == value
    ensures forall j :: 0 <= j < consumed - 1 ==> !Accepted(attempts[j], minVal, maxVal)
    ensures value.None? ==> consumed == |attempts|
  {
    var i := 0;
    while i < |attempts|
      invariant 0 <= i <= |attempts|
      invariant forall j :: 0 <= j < i ==> !Accepted(attempts[j], minVal, maxVal)
    {
      var attempt := attempts[i];
      if attempt.Some? && minVal <= attempt.value <= maxVal {
        return attempt, i + 1;
      }
      i := i + 1;
    }
    return None, |attempts|;
  }
}
