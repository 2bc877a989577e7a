/** The guard at the head of the lookup handler: a pincode is six ASCII digits. */
module Pincode {

  const PincodeLength := 6
  const InvalidPincodeMessage := "Pincode must be 6 digits!"

  /** `\d` in a JavaScript regular expression without the `u` flag: `[0-9]`. */
  predicate IsDigit(c: char) {
    '0' <= c <= '9'
  }

  /** The anchored regular expression `^\d{n}$`, matched one character at a time. */
  function MatchesDigits(s: string, n: nat): (ok: bool)
    ensures ok <==> |s| == n && forall i :: 0 <= i < |s| ==> IsDigit(s[i])
    decreases n
  {
    if n == 0 then |s| == 0
    else |s| > 0 && IsDigit(s[0]) && MatchesDigits(s[1..], n - 1)
  }

  /**
   The handler's guard: the length is six and the string matches `^\d{6}$`.
   The length test is redundant with the expression, as in the handler.
   */
  function IsValidPincode(s: string): (ok: bool)
    ensures ok <==> |s| == 6 && forall i :: 0 <= i < |s| ==> '0' <= s[i] <= '9'
  {
    |s| == PincodeLength && MatchesDigits(s, PincodeLength)
  }

  /** The sample codes: one accepted, three refused. */
  lemma ValidationExamples()
    ensures IsValidPincode("560001")
    ensures !IsValidPincode("56001")
    ensures !IsValidPincode("56A001")
    ensures !IsValidPincode("")
    ensures !IsValidPincode("5600011")
  {
    assert !IsDigit("56A001"[2]);
  }
}
