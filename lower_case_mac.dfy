/** lower_case_mac.py: `convert_to_lowercase` rewrites a list of MAC address
    texts in lower case, keeping their order and their separators. */
module LowerMac {
  import opened Common

  /** `[mac.lower() for mac in mac_addresses]`. */
  function ConvertToLowercase(macAddresses: seq<string>): (r: seq<string>)
    ensures |r| == |macAddresses|
    ensures forall i :: 0 <= i < |r| ==> |r[i]| == |macAddresses[i]|
    ensures forall i, k :: 0 <= i < |r| && 0 <= k < |r[i]| ==> r[i][k] == LowerChar(macAddresses[i][k])
  {
    if macAddresses == [] then []
    else [Lower(macAddresses[0])] + ConvertToLowercase(macAddresses[1..])
  }

  /** The value of a hexadecimal digit, in either case. */
  function HexValue(c: char): (v: nat)
    requires IsHexDigit(c)
    ensures v < 16
  {
    if '0' <= c <= '9' then c as int - '0' as int
    else if 'a' <= c <= 'f' then c as int - 'a' as int + 10
    else c as int - 'A' as int + 10
  }

  /** A MAC text keeps its shape: every separator and digit stays where it
      was, every hexadecimal digit stays a digit of the same value, and no
      upper-case letter is left. */
  lemma SameAddress(macAddresses: seq<string>, i: nat, k: nat)
    requires i < |macAddresses| && k < |macAddresses[i]|
    ensures var c, d := macAddresses[i][k], ConvertToLowercase(macAddresses)[i][k];
      && !('A' <= d <= 'Z')
      && (IsHexDigit(c) ==> IsHexDigit(d) && HexValue(d) == HexValue(c))
      && (!('A' <= c <= 'Z') ==> d == c)
  {
  }

  /** Converting twice is converting once. */
  lemma {:induction false} ConvertIdempotent(macAddresses: seq<string>)
    ensures ConvertToLowercase(ConvertToLowercase(macAddresses)) == ConvertToLowercase(macAddresses)
  {
    var once := ConvertToLowercase(macAddresses);
    var twice := ConvertToLowercase(once);
    forall i | 0 <= i < |once|
      ensures twice[i] == once[i]
    {
      assert |twice[i]| == |once[i]|;
      forall k | 0 <= k < |once[i]|
        ensures twice[i][k] == once[i][k]
      {
      }
    }
  }
}
