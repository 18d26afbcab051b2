/** Names for session variables and prepared statements: `var` followed by
    the hex encoding of freshly drawn random bytes. The random source is
    not modelled; the drawn bytes are a parameter. */
module Identifiers {
  import opened Results
  import opened Hex
  import opened Lexer

  /** Random bytes drawn per identifier by the substitution protocol. */
  const IdentBytes: nat := 16

  /** The `var` prefix keeps a hex string such as `1e2` from being read as
      a number in scientific notation. */
  const Prefix: string := "var"

  function RandIdentifier(draw: seq<byte>): (id: string)
    ensures |id| == |Prefix| + 2 * |draw|
    ensures id[..|Prefix|] == Prefix
    ensures IsIdentifier(id) && !IsDigit(id[0])
    ensures forall k :: |Prefix| <= k < |id| ==> IsLowerHexDigit(id[k])
  {
    Prefix + EncodeToString(draw)
  }

  /** The name carries its draw: the part after the prefix decodes back to
      the bytes drawn. */
  lemma RandIdentifierDecodes(draw: seq<byte>)
    ensures DecodeLower(RandIdentifier(draw)[|Prefix|..]) == Some(draw)
  {
    DecodeEncode(draw);
    assert RandIdentifier(draw)[|Prefix|..] == EncodeToString(draw);
  }

  /** Different draws never give the same name. */
  lemma RandIdentifierInjective(a: seq<byte>, b: seq<byte>)
    requires RandIdentifier(a) == RandIdentifier(b)
    ensures a == b
  {
    RandIdentifierDecodes(a);
    RandIdentifierDecodes(b);
  }

  /** Pairwise distinct draws. */
  predicate Distinct(draws: seq<seq<byte>>) {
    forall i, j :: 0 <= i < j < |draws| ==> draws[i] != draws[j]
  }
}
