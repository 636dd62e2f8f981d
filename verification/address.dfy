/** Ronin addresses. Configuration and chat input may spell an address
    `ronin:<40 hex digits>`; the chain library wants `0x<40 hex digits>`. */
module Address {
  import opened Text
  import opened Optional

  const RoninPrefix: string := "ronin:"
  const HexPrefix: string := "0x"

  predicate IsHexDigit(c: char) {
    ('0' <= c <= '9') || ('a' <= c <= 'f') || ('A' <= c <= 'F')
  }

  predicate AllHex(s: string) {
    forall k :: 0 <= k < |s| ==> IsHexDigit(s[k])
  }

  /** The shape `Web3.isAddress` accepts: 40 hex digits, optionally after a
      `0x` or `0X` prefix. A missing value (Python `None`) is never an address. */
  predicate IsAddress(a: Option<string>) {
    match a
    case None => false
    case Some(s) =>
      || (|s| == 40 && AllHex(s))
      || (|s| == 42 && (s[..2] == "0x" || s[..2] == "0X") && AllHex(s[2..]))
  }

  /** `s.replace('ronin:', '0x')`, applied to every address read from
      configuration or typed in chat before it reaches the chain library. */
  function Normalise(s: string): string {
    ReplaceAll(s, RoninPrefix, HexPrefix)
  }

  /** Hex digits never contain the letters of `ronin:`. */
  lemma HexHasNoRoninPrefix(h: string)
    requires AllHex(h)
    ensures !Contains(h, RoninPrefix)
  {
    forall i | 0 <= i <= |h| - |RoninPrefix|
      ensures !OccursAt(h, RoninPrefix, i)
    {
      assert IsHexDigit(h[i + 1]);
      assert h[i..i + 6][1] == h[i + 1];
      assert RoninPrefix[1] == 'o';
    }
  }

  /** Normalising the `ronin:` spelling of an address gives its `0x` spelling,
      which the chain library accepts. */
  lemma NormaliseRonin(h: string)
    requires |h| == 40 && AllHex(h)
    ensures Normalise(RoninPrefix + h) == HexPrefix + h
    ensures IsAddress(Some(Normalise(RoninPrefix + h)))
    ensures !IsAddress(Some(RoninPrefix + h))
  {
    HexHasNoRoninPrefix(h);
    ReplaceLeading(RoninPrefix, HexPrefix, h);
    var s := HexPrefix + h;
    assert s[..2] == "0x";
    assert s[2..] == h;
    var r := RoninPrefix + h;
    assert r[0] == 'r';
    assert !IsHexDigit(r[0]);
  }

  /** An address already in `0x` form is left alone by normalisation. */
  lemma NormaliseHex(h: string)
    requires |h| == 40 && AllHex(h)
    ensures Normalise(HexPrefix + h) == HexPrefix + h
  {
    HexHasNoRoninPrefix(h);
    var s := HexPrefix + h;
    assert RoninPrefix[0] == 'r';
    assert s[..6][0] == '0';
    assert s[1..] == "x" + h;
    assert ("x" + h)[..6][0] == 'x';
    assert ("x" + h)[1..] == h;
    ReplaceAbsent(h, RoninPrefix, HexPrefix);
    assert ReplaceAll("x" + h, RoninPrefix, HexPrefix) == "x" + h;
    assert ReplaceAll(s, RoninPrefix, HexPrefix) == [s[0]] + ReplaceAll(s[1..], RoninPrefix, HexPrefix);
  }
}
