/** The compact JSON text of a vault, as serde_json writes it, and how long it can become. */
module VaultJson {
  import opened Text
  import opened Credentials

  // The most bytes the document of a valid set can take.
  const LARGEST_VAULT: nat := 130_729

  datatype Document = Document(version: nat, credentials: seq<Credential>)

  function Ascii(s: string): (b: Bytes)
    requires forall i :: 0 <= i < |s| ==> s[i] as int < 128
    ensures |b| == |s|
  {
    seq(|s|, i requires 0 <= i < |s| => s[i] as int)
  }

  function EscapedByte(b: Byte): Bytes {
    if b == 0x22 || b == 0x5C then [0x5C, b]
    else if b == 0x08 then Ascii("\\b")
    else if b == 0x09 then Ascii("\\t")
    else if b == 0x0A then Ascii("\\n")
    else if b == 0x0C then Ascii("\\f")
    else if b == 0x0D then Ascii("\\r")
    else if b < 0x20 then Ascii("\\u00") + Ascii([HexChar(b / 16), HexChar(b % 16)])
    else [b]
  }

  function Escaped(bytes: Bytes): Bytes {
    if bytes == [] then [] else Escaped(bytes[..|bytes| - 1]) + EscapedByte(bytes[|bytes| - 1])
  }

  function RenderOne(one: Credential, c: Codec): Bytes {
    Ascii("{\"serverId\":\"") + Escaped(c.utf8(one.serverId)) + Ascii("\",\"token\":\"") + Escaped(c.utf8(one.token)) + Ascii("\"}")
  }

  function RenderAll(s: seq<Credential>, c: Codec): Bytes {
    if s == [] then []
    else
      RenderAll(s[..|s| - 1], c) + (if |s| == 1 then [] else Ascii(",")) + RenderOne(s[|s| - 1], c)
  }

  function Render(d: Document, c: Codec): Bytes {
    Ascii("{\"version\":") + Ascii(Decimal(d.version)) + Ascii(",\"credentials\":[") + RenderAll(d.credentials, c) + Ascii("]}")
  }

  // UTF-8 uses the bytes of the ASCII control characters for those characters only.
  ghost predicate PlainUtf8(c: Codec) {
    forall s: string :: (forall i :: 0 <= i < |s| ==> !IsControl(s[i])) ==> forall b :: b in c.utf8(s) ==> b >= 0x20
  }

  // ---------- every valid set fits ----------

  lemma EscapedByteIsShort(b: Byte)
    requires b >= 0x20
    ensures |EscapedByte(b)| <= 2
  {
  }

  lemma {:induction false} EscapingAtMostDoubles(bytes: Bytes)
    requires forall b :: b in bytes ==> b >= 0x20
    ensures |Escaped(bytes)| <= 2 * |bytes|
  {
    if bytes != [] {
      var n := |bytes| - 1;
      assert forall b :: b in bytes[..n] ==> b in bytes;
      EscapingAtMostDoubles(bytes[..n]);
      assert bytes[n] in bytes;
      EscapedByteIsShort(bytes[n]);
    }
  }

  lemma OneFits(one: Credential, c: Codec)
    requires PlainUtf8(c) && Sound(one.serverId, MAX_SERVER_ID_BYTES, c) && Sound(one.token, MAX_TOKEN_BYTES, c)
    ensures |RenderOne(one, c)| <= 26 + 2 * (MAX_SERVER_ID_BYTES + MAX_TOKEN_BYTES)
  {
    EscapingAtMostDoubles(c.utf8(one.serverId));
    EscapingAtMostDoubles(c.utf8(one.token));
  }

  lemma {:induction false} AllFit(s: seq<Credential>, c: Codec)
    requires PlainUtf8(c)
    requires forall i :: 0 <= i < |s| ==> Sound(s[i].serverId, MAX_SERVER_ID_BYTES, c) && Sound(s[i].token, MAX_TOKEN_BYTES, c)
    ensures |RenderAll(s, c)| <= 1307 * |s|
    ensures s != [] ==> |RenderAll(s, c)| <= 1307 * |s| - 1
  {
    if s != [] {
      AllFit(s[..|s| - 1], c);
      OneFits(s[|s| - 1], c);
    }
  }

  lemma RenderLength(d: Document, c: Codec)
    ensures |Render(d, c)| == 29 + |Decimal(d.version)| + |RenderAll(d.credentials, c)|
  {
  }

  // A hundred credentials with identifiers and tokens at their limits, every byte escaped, still fit.
  lemma ValidSetsAreShort(s: seq<Credential>, c: Codec)
    requires PlainUtf8(c) && ValidSet(s, c)
    ensures |Render(Document(1, s), c)| <= LARGEST_VAULT
  {
    AllFit(s, c);
    RenderLength(Document(1, s), c);
    assert |Decimal(1)| == 1;
  }
}
