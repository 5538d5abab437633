/** Sizes of text in UTF-8, from code points alone. */
module Utf8 {
  /** UTF-8 bytes of one code point. */
  function CharBytes(c: char): nat {
    var cp := c as nat;
    if cp < 0x80 then 1 else if cp < 0x800 then 2 else if cp < 0x1_0000 then 3 else 4
  }

  function Bytes(s: string): nat {
    if s == "" then 0 else CharBytes(s[0]) + Bytes(s[1..])
  }

  lemma {:induction false} BytesConcat(s: string, t: string)
    ensures Bytes(s + t) == Bytes(s) + Bytes(t)
  {
    if s == "" {
      assert s + t == t;
    } else {
      BytesConcat(s[1..], t);
      assert (s + t)[1..] == s[1..] + t;
    }
  }

  lemma BytesOfAscii(s: string)
    requires forall i :: 0 <= i < |s| ==> s[i] as nat < 0x80
    ensures Bytes(s) == |s|
  {
  }
}
