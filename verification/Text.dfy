/** Text operations the printers and parsers share: separators, first occurrences, decimal numbers. */
module Text {
  import opened Wrappers

  // ---------- separators ----------

  function Split(s: string, sep: char): (parts: seq<string>)
    ensures |parts| >= 1
    ensures forall i :: 0 <= i < |parts| ==> sep !in parts[i]
  {
    if s == "" then [""]
    else
      var rest := Split(s[1..], sep);
      if s[0] == sep then [""] + rest
      else [[s[0]] + rest[0]] + rest[1..]
  }

  function Join(parts: seq<string>, glue: string): string {
    if parts == [] then ""
    else if |parts| == 1 then parts[0]
    else parts[0] + glue + Join(parts[1..], glue)
  }

  lemma JoinCons(part: string, rest: seq<string>, glue: string)
    requires rest != []
    ensures Join([part] + rest, glue) == part + glue + Join(rest, glue)
  {
    assert ([part] + rest)[1..] == rest;
  }

  lemma JoinPrepend(c: char, parts: seq<string>, glue: string)
    requires parts != []
    ensures Join([[c] + parts[0]] + parts[1..], glue) == [c] + Join(parts, glue)
  {
    assert ([[c] + parts[0]] + parts[1..])[1..] == parts[1..];
  }

  lemma {:induction false} JoinUndoesSplit(s: string, sep: char)
    ensures Join(Split(s, sep), [sep]) == s
  {
    if s != "" {
      var rest := Split(s[1..], sep);
      JoinUndoesSplit(s[1..], sep);
      if s[0] == sep {
        JoinCons("", rest, [sep]);
      } else {
        JoinPrepend(s[0], rest, [sep]);
      }
    }
  }

  lemma {:induction false} SplitOfPart(part: string, sep: char)
    requires sep !in part
    ensures Split(part, sep) == [part]
  {
    if part != "" {
      SplitOfPart(part[1..], sep);
      assert part == [part[0]] + part[1..];
    }
  }

  lemma {:induction false} SplitAtFirst(part: string, rest: string, sep: char)
    requires sep !in part
    ensures Split(part + [sep] + rest, sep) == [part] + Split(rest, sep)
  {
    var s := part + [sep] + rest;
    if part == "" {
      assert s[1..] == rest;
    } else {
      SplitAtFirst(part[1..], rest, sep);
      assert s[1..] == part[1..] + [sep] + rest;
      assert part == [part[0]] + part[1..];
    }
  }

  lemma {:induction false} SplitUndoesJoin(parts: seq<string>, sep: char)
    requires parts != []
    requires forall i :: 0 <= i < |parts| ==> sep !in parts[i]
    ensures Split(Join(parts, [sep]), sep) == parts
  {
    if |parts| == 1 {
      SplitOfPart(parts[0], sep);
    } else {
      SplitUndoesJoin(parts[1..], sep);
      SplitAtFirst(parts[0], Join(parts[1..], [sep]), sep);
      assert parts == [parts[0]] + parts[1..];
    }
  }

  // ---------- first occurrence ----------

  function Find(s: string, pattern: string): Option<nat> {
    if pattern <= s then Some(0)
    else if s == "" then None
    else match Find(s[1..], pattern)
      case Some(i) => Some(i + 1)
      case None => None
  }

  // Rust's str::split_once.
  function SplitOnce(s: string, pattern: string): (r: Option<(string, string)>)
    ensures r.Some? ==> s == r.value.0 + pattern + r.value.1
  {
    FindSound(s, pattern);
    match Find(s, pattern)
    case Some(i) => Some((s[..i], s[i + |pattern|..]))
    case None => None
  }

  lemma {:induction false} FindSound(s: string, pattern: string)
    ensures Find(s, pattern).Some? ==>
              var i := Find(s, pattern).value;
              i + |pattern| <= |s| && s == s[..i] + pattern + s[i + |pattern|..]
  {
    if !(pattern <= s) && s != "" {
      FindSound(s[1..], pattern);
      if Find(s, pattern).Some? {
        var i := Find(s, pattern).value;
        var tail := s[1..];
        assert tail == tail[..i - 1] + pattern + tail[i - 1 + |pattern|..];
        assert s == [s[0]] + tail;
        assert s[..i] == [s[0]] + tail[..i - 1];
        assert s[i + |pattern|..] == tail[i - 1 + |pattern|..];
      }
    }
  }

  lemma {:induction false} SplitOnceAtFirst(before: string, pattern: string, after: string)
    requires pattern != "" && pattern[0] !in before
    ensures SplitOnce(before + pattern + after, pattern) == Some((before, after))
  {
    FindAtFirst(before, pattern, after);
    var s := before + pattern + after;
    assert s[..|before|] == before;
    assert s[|before| + |pattern|..] == after;
  }

  lemma {:induction false} FindAtFirst(before: string, pattern: string, after: string)
    requires pattern != "" && pattern[0] !in before
    ensures Find(before + pattern + after, pattern) == Some(|before|)
  {
    var s := before + pattern + after;
    if before == "" {
      assert s == pattern + after;
    } else {
      assert s[0] == before[0] != pattern[0];
      assert s[1..] == before[1..] + pattern + after;
      FindAtFirst(before[1..], pattern, after);
    }
  }

  // Two texts that end their first field at the first occurrence of a character agree field by field.
  lemma {:induction false} FieldsAgree(a: string, restA: string, b: string, restB: string, stop: char)
    requires stop !in a && stop !in b
    requires restA != "" && restA[0] == stop && restB != "" && restB[0] == stop
    requires a + restA == b + restB
    ensures a == b && restA == restB
  {
    var whole := a + restA;
    assert forall i :: 0 <= i < |a| ==> whole[i] == a[i] && whole[i] != stop;
    assert forall i :: 0 <= i < |b| ==> whole[i] == b[i] && whole[i] != stop;
    assert whole[|a|] == stop && whole[|b|] == stop;
    assert a == whole[..|a|] && b == whole[..|b|];
    assert restA == whole[|a|..] && restB == whole[|b|..];
  }

  // ---------- versions ----------

  // The characters a runtime version may hold on either platform.
  predicate IsVersionCharacter(c: char) {
    'a' <= c <= 'z' || 'A' <= c <= 'Z' || '0' <= c <= '9' || c == '.' || c == '_' || c == '-'
  }

  // ---------- decimal numbers ----------

  const U16_MAX: nat := 65535

  function Min(a: nat, b: nat): nat { if a <= b then a else b }

  const ZERO := '0' as int

  predicate IsDigit(c: char) { '0' <= c <= '9' }

  predicate AllDigits(s: string) { forall i :: 0 <= i < |s| ==> IsDigit(s[i]) }

  function DigitChar(d: nat): (c: char)
    requires d < 10
    ensures IsDigit(c) && c as int - ZERO == d
  {
    (ZERO + d) as char
  }

  function Decimal(n: nat): (s: string)
    ensures s != "" && AllDigits(s)
  {
    if n < 10 then [DigitChar(n)] else Decimal(n / 10) + [DigitChar(n % 10)]
  }

  function DigitsValue(s: string): nat
    requires AllDigits(s)
  {
    if s == "" then 0 else DigitsValue(s[..|s| - 1]) * 10 + (s[|s| - 1] as int - ZERO)
  }

  lemma {:induction false} DecimalValue(n: nat)
    ensures DigitsValue(Decimal(n)) == n
  {
    var s := Decimal(n);
    if n >= 10 {
      DecimalValue(n / 10);
      assert s[..|s| - 1] == Decimal(n / 10);
    } else {
      assert s[..0] == "";
    }
  }

  lemma {:induction false} DecimalInjective(m: nat, n: nat)
    requires Decimal(m) == Decimal(n)
    ensures m == n
  {
    DecimalValue(m);
    DecimalValue(n);
  }

  // ---------- ASCII case ----------

  function LowerChar(c: char): char {
    if 'A' <= c <= 'Z' then (c as int + 32) as char else c
  }

  function Lower(s: string): (r: string)
    ensures |r| == |s|
    ensures forall i :: 0 <= i < |s| ==> r[i] == LowerChar(s[i])
  {
    seq(|s|, i requires 0 <= i < |s| => LowerChar(s[i]))
  }
}
