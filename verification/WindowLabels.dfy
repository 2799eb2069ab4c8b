/** native_windows.rs `session_window_label`: the label of a session's window. Texts are their UTF-8 bytes. */
module WindowLabels {
  import opened Wrappers
  import opened Text
  import opened Credentials

  const PREFIX := "win-session-"
  const LEGACY := "legacy-"

  function Suffix(machine: Option<Bytes>, session: Bytes): string {
    match machine
    case Some(m) => "m" + (Decimal(|m|) + ("-" + (EncodeHex(m) + ("-" + EncodeHex(session)))))
    case None => LEGACY + EncodeHex(session)
  }

  function SessionWindowLabel(machine: Option<Bytes>, session: Bytes): string {
    PREFIX + Suffix(machine, session)
  }

  lemma HexTells(a: Bytes, b: Bytes)
    requires EncodeHex(a) == EncodeHex(b)
    ensures a == b
  {
    DecodePairsUndoesEncode(a);
    DecodePairsUndoesEncode(b);
  }

  lemma {:induction false} HexHasNoHyphen(a: Bytes)
    ensures '-' !in EncodeHex(a)
  {
    if a != [] { HexHasNoHyphen(a[..|a| - 1]); }
  }

  lemma DecimalHasNoHyphen(n: nat)
    ensures '-' !in Decimal(n)
  {
  }

  lemma ScopedTells(m: Bytes, s: Bytes, n: Bytes, t: Bytes)
    requires Suffix(Some(m), s) == Suffix(Some(n), t)
    ensures m == n && s == t
  {
    var afterM := "-" + (EncodeHex(m) + ("-" + EncodeHex(s)));
    var afterN := "-" + (EncodeHex(n) + ("-" + EncodeHex(t)));
    assert Suffix(Some(m), s)[1..] == Decimal(|m|) + afterM;
    assert Suffix(Some(n), t)[1..] == Decimal(|n|) + afterN;
    DecimalHasNoHyphen(|m|);
    DecimalHasNoHyphen(|n|);
    FieldsAgree(Decimal(|m|), afterM, Decimal(|n|), afterN, '-');
    assert afterM[1..] == EncodeHex(m) + ("-" + EncodeHex(s));
    assert afterN[1..] == EncodeHex(n) + ("-" + EncodeHex(t));
    HexHasNoHyphen(m);
    HexHasNoHyphen(n);
    FieldsAgree(EncodeHex(m), "-" + EncodeHex(s), EncodeHex(n), "-" + EncodeHex(t), '-');
    assert ("-" + EncodeHex(s))[1..] == EncodeHex(s);
    assert ("-" + EncodeHex(t))[1..] == EncodeHex(t);
    HexTells(m, n);
    HexTells(s, t);
  }

  // Two windows share a label exactly when they show the same session of the same machine.
  lemma LabelsTellSessionsApart(m: Option<Bytes>, s: Bytes, n: Option<Bytes>, t: Bytes)
    ensures SessionWindowLabel(m, s) == SessionWindowLabel(n, t) <==> m == n && s == t
  {
    if SessionWindowLabel(m, s) == SessionWindowLabel(n, t) {
      assert Suffix(m, s) == SessionWindowLabel(m, s)[|PREFIX|..];
      assert Suffix(n, t) == SessionWindowLabel(n, t)[|PREFIX|..];
      assert m.Some? ==> Suffix(m, s)[0] == 'm';
      assert n.Some? ==> Suffix(n, t)[0] == 'm';
      assert m.None? ==> Suffix(m, s)[0] == 'l';
      assert n.None? ==> Suffix(n, t)[0] == 'l';
      if m.Some? {
        ScopedTells(m.value, s, n.value, t);
      } else {
        assert EncodeHex(s) == Suffix(m, s)[|LEGACY|..];
        assert EncodeHex(t) == Suffix(n, t)[|LEGACY|..];
        HexTells(s, t);
      }
    }
  }
}
