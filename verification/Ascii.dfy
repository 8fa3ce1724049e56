/** ASCII text as bytes. */
module Ascii {
  import opened Framing
  import opened JsonText

  /** `.encode()` of ASCII text. */
  function Encode(t: string): (bytes: seq<Byte>)
    requires Printable(t)
    ensures |bytes| == |t| && LF !in bytes
    ensures forall i :: 0 <= i < |t| ==> bytes[i] == t[i] as int
  {
    seq(|t|, i requires 0 <= i < |t| => t[i] as int)
  }

  lemma EncodeUnique(s: string, t: string)
    requires Printable(s) && Printable(t) && Encode(s) == Encode(t)
    ensures s == t
  {
    assert |s| == |t|;
    assert forall i :: 0 <= i < |s| ==> Encode(s)[i] == Encode(t)[i];
  }
}
