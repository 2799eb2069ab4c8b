/** windows_credentials.rs: which credential sets are accepted, hexadecimal text, and the protected vault.

    UTF-8 and the user-scope protection are given functions. */
module Credentials {
  import opened Wrappers
  import opened Text

  const VAULT_VERSION: nat := 1
  const MAX_CREDENTIALS: nat := 100
  const MAX_SERVER_ID_BYTES: nat := 128
  const MAX_TOKEN_BYTES: nat := 512

  type Byte = n: nat | n < 256

  type Bytes = seq<Byte>

  datatype Credential = Credential(serverId: string, token: string)

  datatype Fault = TooMany | BadIdentifier | BadToken | Duplicate | BadVersion | BadData | NotProtected | NotUnlocked | NotUtf8

  datatype Codec = Codec(
    utf8: string -> Bytes,
    fromUtf8: Bytes -> Option<string>,
    protect: (string, Bytes) -> Option<Bytes>,
    unprotect: (string, Bytes) -> Option<Bytes>)

  // What is protected for a server can be unlocked for that server, and is never empty.
  ghost predicate Lawful(c: Codec) {
    && (forall s: string :: c.fromUtf8(c.utf8(s)) == Some(s))
    && (forall id: string, plain: Bytes :: c.protect(id, plain).Some? ==>
          c.protect(id, plain).value != [] && c.unprotect(id, c.protect(id, plain).value) == Some(plain))
  }

  // ---------- validate_credentials ----------

  // char::is_control
  predicate IsControl(c: char) {
    var n := c as int;
    n <= 0x1F || 0x7F <= n <= 0x9F
  }

  predicate Sound(s: string, limit: nat, c: Codec) {
    s != "" && |c.utf8(s)| <= limit && forall i :: 0 <= i < |s| ==> !IsControl(s[i])
  }

  predicate ValidSet(s: seq<Credential>, c: Codec) {
    && |s| <= MAX_CREDENTIALS
    && (forall i :: 0 <= i < |s| ==> Sound(s[i].serverId, MAX_SERVER_ID_BYTES, c) && Sound(s[i].token, MAX_TOKEN_BYTES, c))
    && (forall i, j :: 0 <= i < j < |s| ==> s[i].serverId != s[j].serverId)
  }

  // What is wrong with entry i, given the entries before it.
  function FaultAt(s: seq<Credential>, i: nat, c: Codec): Option<Fault>
    requires i < |s|
  {
    if !Sound(s[i].serverId, MAX_SERVER_ID_BYTES, c) then Some(BadIdentifier)
    else if !Sound(s[i].token, MAX_TOKEN_BYTES, c) then Some(BadToken)
    else if exists j :: 0 <= j < i && s[j].serverId == s[i].serverId then Some(Duplicate)
    else None
  }

  // Accepts exactly the valid sets, unchanged; a refusal names the first fault.
  method ValidateCredentials(s: seq<Credential>, c: Codec) returns (r: Result<seq<Credential>, Fault>)
    ensures r.Ok? <==> ValidSet(s, c)
    ensures r.Ok? ==> r.value == s
    ensures r == Err(TooMany) <==> |s| > MAX_CREDENTIALS
    ensures r.Err? && |s| <= MAX_CREDENTIALS ==>
              exists i :: 0 <= i < |s| && ValidSet(s[..i], c) && FaultAt(s, i, c) == Some(r.error)
  {
    if |s| > MAX_CREDENTIALS { return Err(TooMany); }
    var seen: set<string> := {};
    for i := 0 to |s|
      invariant ValidSet(s[..i], c)
      invariant forall id :: id in seen <==> exists j :: 0 <= j < i && s[j].serverId == id
    {
      assert forall j :: 0 <= j < i ==> s[..i][j] == s[j];
      if !Sound(s[i].serverId, MAX_SERVER_ID_BYTES, c) {
        assert FaultAt(s, i, c) == Some(BadIdentifier);
        return Err(BadIdentifier);
      }
      if !Sound(s[i].token, MAX_TOKEN_BYTES, c) {
        assert FaultAt(s, i, c) == Some(BadToken);
        return Err(BadToken);
      }
      if s[i].serverId in seen {
        assert FaultAt(s, i, c) == Some(Duplicate);
        return Err(Duplicate);
      }
      seen := seen + {s[i].serverId};
      assert s[..i + 1] == s[..i] + [s[i]];
    }
    assert s[..|s|] == s;
    r := Ok(s);
  }

  // ---------- hexadecimal text ----------

  // The lower-case digit of a nibble.
  function HexChar(d: nat): char
    requires d < 16
  {
    if d < 10 then ('0' as int + d) as char else ('a' as int + (d - 10)) as char
  }

  function Nibble(c: char): Option<nat> {
    if '0' <= c <= '9' then Some(c as int - '0' as int)
    else if 'a' <= c <= 'f' then Some(c as int - 'a' as int + 10)
    else if 'A' <= c <= 'F' then Some(c as int - 'A' as int + 10)
    else None
  }

  function EncodeHex(bytes: Bytes): string {
    if bytes == [] then ""
    else
      var last := bytes[|bytes| - 1];
      EncodeHex(bytes[..|bytes| - 1]) + [HexChar(last / 16), HexChar(last % 16)]
  }

  method EncodeHexLoop(bytes: Bytes) returns (encoded: string)
    ensures encoded == EncodeHex(bytes)
  {
    encoded := "";
    for i := 0 to |bytes|
      invariant encoded == EncodeHex(bytes[..i])
    {
      assert bytes[..i + 1][..i] == bytes[..i];
      encoded := encoded + [HexChar(bytes[i] / 16)];
      encoded := encoded + [HexChar(bytes[i] % 16)];
    }
    assert bytes[..|bytes|] == bytes;
  }

  function DecodePairs(value: string): Option<Bytes>
    requires |value| % 2 == 0
  {
    if value == "" then Some([])
    else
      var n := |value|;
      match DecodePairs(value[..n - 2])
      case None => None
      case Some(front) =>
        var high, low := Nibble(value[n - 2]), Nibble(value[n - 1]);
        if high.None? || low.None? then None else Some(front + [high.value * 16 + low.value])
  }

  function DecodeHex(value: string): Option<Bytes> {
    if value == "" || |value| % 2 != 0 then None else DecodePairs(value)
  }

  lemma HexDigits(d: nat)
    requires d < 16
    ensures Nibble(HexChar(d)) == Some(d) && LowerChar(HexChar(d)) == HexChar(d)
  {
  }

  lemma NibbleSpellsLower(c: char)
    requires Nibble(c).Some?
    ensures Nibble(c).value < 16 && HexChar(Nibble(c).value) == LowerChar(c)
  {
  }

  lemma {:induction false} DecodePairsUndoesEncode(bytes: Bytes)
    ensures |EncodeHex(bytes)| == 2 * |bytes|
    ensures DecodePairs(EncodeHex(bytes)) == Some(bytes)
  {
    if bytes != [] {
      var n := |bytes| - 1;
      DecodePairsUndoesEncode(bytes[..n]);
      HexDigits(bytes[n] / 16);
      HexDigits(bytes[n] % 16);
      var text := EncodeHex(bytes);
      assert text[..|text| - 2] == EncodeHex(bytes[..n]);
      assert bytes == bytes[..n] + [bytes[n]];
    }
  }

  // decode undoes encode on every byte string but the empty one.
  lemma DecodeUndoesEncode(bytes: Bytes)
    ensures DecodeHex(EncodeHex(bytes)) == if bytes == [] then None else Some(bytes)
  {
    DecodePairsUndoesEncode(bytes);
  }

  ghost predicate AllHex(value: string) { forall i :: 0 <= i < |value| ==> Nibble(value[i]).Some? }

  lemma {:induction false} PairsDecodeHexOnly(value: string)
    requires |value| % 2 == 0
    ensures DecodePairs(value).Some? <==> AllHex(value)
  {
    if value != "" {
      var n := |value|;
      var front := value[..n - 2];
      PairsDecodeHexOnly(front);
      assert value == front + [value[n - 2], value[n - 1]];
      assert AllHex(value) <==> AllHex(front) && Nibble(value[n - 2]).Some? && Nibble(value[n - 1]).Some?;
    }
  }

  lemma LowerSnoc(front: string, a: char, b: char)
    ensures Lower(front + [a, b]) == Lower(front) + [LowerChar(a), LowerChar(b)]
  {
  }

  lemma EncodeSnoc(front: Bytes, high: nat, low: nat)
    requires high < 16 && low < 16
    ensures EncodeHex(front + [high * 16 + low]) == EncodeHex(front) + [HexChar(high), HexChar(low)]
  {
    var bytes := front + [high * 16 + low];
    assert bytes[..|bytes| - 1] == front;
    assert (high * 16 + low) / 16 == high && (high * 16 + low) % 16 == low;
  }

  lemma {:induction false} EncodeOfDecodedPairs(value: string)
    requires |value| % 2 == 0 && DecodePairs(value).Some?
    ensures EncodeHex(DecodePairs(value).value) == Lower(value)
  {
    if value != "" {
      var n := |value|;
      var front := value[..n - 2];
      EncodeOfDecodedPairs(front);
      NibbleSpellsLower(value[n - 2]);
      NibbleSpellsLower(value[n - 1]);
      EncodeSnoc(DecodePairs(front).value, Nibble(value[n - 2]).value, Nibble(value[n - 1]).value);
      assert value == front + [value[n - 2], value[n - 1]];
      LowerSnoc(front, value[n - 2], value[n - 1]);
    }
  }

  // Exactly the non-empty even-length hexadecimal texts decode, and encoding the result lower-cases the text.
  lemma EncodeOfDecodeIsLowerCase(value: string)
    ensures DecodeHex(value).Some? <==>
            value != "" && |value| % 2 == 0 && AllHex(value)
    ensures DecodeHex(value).Some? ==> EncodeHex(DecodeHex(value).value) == Lower(value)
  {
    if |value| % 2 == 0 {
      PairsDecodeHexOnly(value);
      if DecodeHex(value).Some? {
        EncodeOfDecodedPairs(value);
      }
    }
  }

  // ---------- the vault ----------

  datatype Protected = Protected(serverId: string, text: string)

  datatype Vault = Vault(version: nat, credentials: seq<Protected>)

  function ProtectAll(s: seq<Credential>, c: Codec): Option<seq<Protected>> {
    if s == [] then Some([])
    else
      var last := s[|s| - 1];
      match ProtectAll(s[..|s| - 1], c)
      case None => None
      case Some(front) =>
        match c.protect(last.serverId, c.utf8(last.token))
        case None => None
        case Some(bytes) => Some(front + [Protected(last.serverId, EncodeHex(bytes))])
  }

  function ProtectVault(s: seq<Credential>, c: Codec): Option<Vault> {
    if !ValidSet(s, c) then None else
    match ProtectAll(s, c)
    case None => None
    case Some(p) => Some(Vault(VAULT_VERSION, p))
  }

  function UnprotectOne(p: Protected, c: Codec): Result<Credential, Fault> {
    match DecodeHex(p.text)
    case None => Err(BadData)
    case Some(bytes) =>
      match c.unprotect(p.serverId, bytes)
      case None => Err(NotUnlocked)
      case Some(plain) =>
        match c.fromUtf8(plain)
        case None => Err(NotUtf8)
        case Some(token) => Ok(Credential(p.serverId, token))
  }

  // The credentials read back are valid, one for each entry in order; anything else is refused.
  method UnprotectVault(v: Vault, c: Codec) returns (r: Result<seq<Credential>, Fault>)
    ensures r.Ok? <==>
            && v.version == VAULT_VERSION && |v.credentials| <= MAX_CREDENTIALS
            && (forall i :: 0 <= i < |v.credentials| ==> UnprotectOne(v.credentials[i], c).Ok?)
            && ValidSet(Opened(v.credentials, c), c)
    ensures r.Ok? ==> r.value == Opened(v.credentials, c)
  {
    if v.version != VAULT_VERSION { return Err(BadVersion); }
    if |v.credentials| > MAX_CREDENTIALS { return Err(TooMany); }
    var credentials: seq<Credential> := [];
    for i := 0 to |v.credentials|
      invariant forall j :: 0 <= j < i ==> UnprotectOne(v.credentials[j], c).Ok?
      invariant credentials == Opened(v.credentials[..i], c)
    {
      assert v.credentials[..i + 1] == v.credentials[..i] + [v.credentials[i]];
      var one := UnprotectOne(v.credentials[i], c);
      if one.Err? { return Err(one.error); }
      credentials := credentials + [one.value];
    }
    assert v.credentials[..|v.credentials|] == v.credentials;
    r := ValidateCredentials(credentials, c);
  }

  // The credentials behind protected entries; an entry that cannot be opened stands for itself unread.
  function Opened(p: seq<Protected>, c: Codec): (s: seq<Credential>)
    ensures |s| == |p|
  {
    seq(|p|, i requires 0 <= i < |p| =>
      match UnprotectOne(p[i], c) case Ok(one) => one case Err(_) => Credential(p[i].serverId, ""))
  }

  lemma {:induction false} ProtectedOpens(s: seq<Credential>, c: Codec)
    requires Lawful(c) && ProtectAll(s, c).Some?
    ensures |ProtectAll(s, c).value| == |s|
    ensures forall i :: 0 <= i < |s| ==> UnprotectOne(ProtectAll(s, c).value[i], c) == Ok(s[i])
  {
    if s != [] {
      var n := |s| - 1;
      ProtectedOpens(s[..n], c);
      var bytes := c.protect(s[n].serverId, c.utf8(s[n].token)).value;
      DecodeUndoesEncode(bytes);
      assert UnprotectOne(Protected(s[n].serverId, EncodeHex(bytes)), c) == Ok(s[n]);
      assert forall i :: 0 <= i < n ==> s[..n][i] == s[i];
    }
  }

  lemma {:induction false} TotalProtectionProtects(s: seq<Credential>, c: Codec)
    requires forall id: string, plain: Bytes :: c.protect(id, plain).Some?
    ensures ProtectAll(s, c).Some?
  {
    if s != [] {
      TotalProtectionProtects(s[..|s| - 1], c);
    }
  }

  // Whatever was protected is read back exactly; with a protection that never fails, a vault exists for exactly the valid sets.
  lemma VaultRoundTrip(s: seq<Credential>, c: Codec)
    requires Lawful(c)
    ensures ProtectVault(s, c).Some? ==>
              var v := ProtectVault(s, c).value;
              && v.version == VAULT_VERSION && Opened(v.credentials, c) == s && ValidSet(Opened(v.credentials, c), c)
              && |v.credentials| <= MAX_CREDENTIALS
              && forall i :: 0 <= i < |v.credentials| ==> UnprotectOne(v.credentials[i], c).Ok?
    ensures (forall id: string, plain: Bytes :: c.protect(id, plain).Some?) ==> (ProtectVault(s, c).Some? <==> ValidSet(s, c))
  {
    if ProtectVault(s, c).Some? {
      ProtectedOpens(s, c);
      assert Opened(ProtectVault(s, c).value.credentials, c) == s;
    }
    if forall id: string, plain: Bytes :: c.protect(id, plain).Some? {
      TotalProtectionProtects(s, c);
    }
  }

  // Protecting and opening again, as the app does it.
  method ProtectThenUnprotect(s: seq<Credential>, c: Codec) returns (r: Result<seq<Credential>, Fault>)
    requires Lawful(c) && forall id: string, plain: Bytes :: c.protect(id, plain).Some?
    ensures r.Ok? <==> ValidSet(s, c)
    ensures r.Ok? ==> r.value == s
  {
    VaultRoundTrip(s, c);
    var v := ProtectVault(s, c);
    if v.None? { return Err(NotProtected); }
    r := UnprotectVault(v.value, c);
  }
}
