/** check-function-length.go: the gate on function length, its exception list, and the names it gives functions.

    Parsing Go and splitting a line into fields are given; the functions of a file and the fields of a line are
    inputs. */
module LengthGate {
  import opened Wrappers
  import opened Text

  datatype Function = Function(path: string, line: nat, name: string, length: int)

  function Key(path: string, name: string): string { path + "\t" + name }

  function KeyOf(f: Function): string { Key(f.path, f.name) }

  // Go names hold no tab, so a key says both its path and its name.
  lemma KeyTellsPathAndName(p: string, m: string, q: string, n: string)
    requires '\t' !in m && '\t' !in n && Key(p, m) == Key(q, n)
    ensures p == q && m == n
  {
    var k := Key(p, m);
    assert k[|p|] == '\t' && k[|q|] == '\t';
    assert forall i :: |p| < i < |k| ==> k[i] in m;
    assert forall i :: |q| < i < |k| ==> k[i] in n;
    assert |p| == |q|;
    assert p == k[..|p|] && q == k[..|q|];
    assert m == k[|p| + 1..] && n == k[|q| + 1..];
  }

  // ---------- names within one file ----------

  function Count(fs: seq<Function>, name: string): nat {
    if fs == [] then 0 else Count(fs[..|fs| - 1], name) + if fs[|fs| - 1].name == name then 1 else 0
  }

  function Numbered(name: string, k: nat): string { name + "#" + Decimal(k) }

  function Renamed(fs: seq<Function>, i: nat): Function
    requires i < |fs|
  {
    var name := fs[i].name;
    if Count(fs, name) < 2 then fs[i] else fs[i].(name := Numbered(name, Count(fs[..i + 1], name)))
  }

  function Disambiguated(fs: seq<Function>): (r: seq<Function>)
    ensures |r| == |fs|
  {
    seq(|fs|, i requires 0 <= i < |fs| => Renamed(fs, i))
  }

  function At(m: map<string, nat>, name: string): nat { if name in m then m[name] else 0 }

  method CountNames(functions: array<Function>) returns (counts: map<string, nat>)
    ensures forall n :: At(counts, n) == Count(functions[..], n)
  {
    counts := map[];
    var i := 0;
    while i < functions.Length
      invariant 0 <= i <= functions.Length
      invariant forall n :: At(counts, n) == Count(functions[..i], n)
    {
      var name := functions[i].name;
      assert functions[..i + 1][..i] == functions[..i];
      counts := counts[name := At(counts, name) + 1];
      i := i + 1;
    }
    assert functions[..i] == functions[..];
  }

  method DisambiguateNames(functions: array<Function>)
    modifies functions
    ensures functions[..] == Disambiguated(old(functions[..]))
  {
    ghost var was := functions[..];
    var counts := CountNames(functions);
    var seen: map<string, nat> := map[];
    var i := 0;
    while i < functions.Length
      invariant 0 <= i <= functions.Length
      invariant forall n :: Count(was, n) >= 2 ==> At(seen, n) == Count(was[..i], n)
      invariant forall k :: 0 <= k < i ==> functions[k] == Renamed(was, k)
      invariant forall k :: i <= k < functions.Length ==> functions[k] == was[k]
    {
      var name := functions[i].name;
      assert was[..i + 1][..i] == was[..i];
      CountIncludes(was, i);
      if At(counts, name) >= 2 {
        seen := seen[name := At(seen, name) + 1];
        functions[i] := functions[i].(name := Numbered(name, seen[name]));
      }
      i := i + 1;
    }
  }

  lemma {:induction false} CountGrows(fs: seq<Function>, i: nat, j: nat, name: string)
    requires i <= j <= |fs|
    ensures Count(fs[..i], name) <= Count(fs[..j], name)
  {
    if i < j {
      CountGrows(fs, i, j - 1, name);
      assert fs[..j][..j - 1] == fs[..j - 1];
    }
  }

  lemma CountIncludes(fs: seq<Function>, i: nat)
    requires i < |fs|
    ensures Count(fs[..i + 1], fs[i].name) == Count(fs[..i], fs[i].name) + 1
    ensures Count(fs, fs[i].name) >= Count(fs[..i + 1], fs[i].name)
  {
    assert fs[..i + 1][..i] == fs[..i];
    assert fs[..|fs|] == fs;
    CountGrows(fs, i + 1, |fs|, fs[i].name);
  }

  // Names as Go writes them hold neither the number sign nor a tab.
  ghost predicate GoNames(fs: seq<Function>) {
    forall i :: 0 <= i < |fs| ==> '#' !in fs[i].name && '\t' !in fs[i].name
  }

  lemma NumberedTells(m: string, j: nat, n: string, k: nat)
    requires '#' !in m && '#' !in n && Numbered(m, j) == Numbered(n, k)
    ensures m == n && j == k
  {
    assert Numbered(m, j) == m + ("#" + Decimal(j)) && Numbered(n, k) == n + ("#" + Decimal(k));
    FieldsAgree(m, "#" + Decimal(j), n, "#" + Decimal(k), '#');
    assert Decimal(j) == ("#" + Decimal(j))[1..];
    assert Decimal(k) == ("#" + Decimal(k))[1..];
    DecimalInjective(j, k);
  }

  lemma NumberedIsMarked(name: string, k: nat)
    ensures '#' in Numbered(name, k) && ('\t' !in name ==> '\t' !in Numbered(name, k))
  {
    assert Numbered(name, k)[|name|] == '#';
  }

  lemma NamesBecomeDistinct(fs: seq<Function>, i: nat, j: nat)
    requires GoNames(fs) && i < j < |fs|
    ensures Disambiguated(fs)[i].name != Disambiguated(fs)[j].name
  {
    var m, n := fs[i].name, fs[j].name;
    CountIncludes(fs, i);
    CountIncludes(fs, j);
    CountGrows(fs, i + 1, j, m);
    var a, b := Count(fs[..i + 1], m), Count(fs[..j + 1], n);
    NumberedIsMarked(m, a);
    NumberedIsMarked(n, b);
    if Numbered(m, a) == Numbered(n, b) { NumberedTells(m, a, n, b); }
  }

  // ---------- all files ----------

  datatype File = File(path: string, functions: seq<Function>)

  function Found(files: seq<File>): seq<Function> {
    if files == [] then [] else Disambiguated(files[0].functions) + Found(files[1..])
  }

  ghost predicate GoFiles(files: seq<File>) {
    && (forall i, j :: 0 <= i < j < |files| ==> files[i].path != files[j].path)
    && (forall i :: 0 <= i < |files| ==> GoNames(files[i].functions))
    && (forall i, k :: 0 <= i < |files| && 0 <= k < |files[i].functions| ==> files[i].functions[k].path == files[i].path)
  }

  ghost predicate Origin(f: Function, files: seq<File>, i: nat, k: nat) {
    i < |files| && k < |files[i].functions| && f == Disambiguated(files[i].functions)[k]
  }

  lemma {:induction false} FoundComesFromAFile(files: seq<File>, f: Function) returns (i: nat, k: nat)
    requires f in Found(files)
    ensures Origin(f, files, i, k)
  {
    if f in Disambiguated(files[0].functions) {
      i := 0;
      k :| 0 <= k < |files[0].functions| && f == Disambiguated(files[0].functions)[k];
    } else {
      i, k := FoundComesFromAFile(files[1..], f);
      i := i + 1;
    }
  }

  lemma OriginKeepsPath(f: Function, files: seq<File>, i: nat, k: nat)
    requires GoFiles(files) && Origin(f, files, i, k)
    ensures f.path == files[i].path && '\t' !in f.name
  {
    var fs := files[i].functions;
    NumberedIsMarked(fs[k].name, Count(fs[..k + 1], fs[k].name));
  }

  ghost predicate KeysIdentify(fs: seq<Function>) {
    forall f, g :: f in fs && g in fs && KeyOf(f) == KeyOf(g) ==> f == g
  }

  // However many files there are, a key names one function.
  lemma KeysIdentifyFunctions(files: seq<File>)
    requires GoFiles(files)
    ensures KeysIdentify(Found(files))
  {
    forall f, g | f in Found(files) && g in Found(files) && KeyOf(f) == KeyOf(g) ensures f == g {
      var i, k := FoundComesFromAFile(files, f);
      var j, l := FoundComesFromAFile(files, g);
      OriginKeepsPath(f, files, i, k);
      OriginKeepsPath(g, files, j, l);
      KeyTellsPathAndName(f.path, f.name, g.path, g.name);
      SameOrigin(f, i, k, g, j, l, files);
    }
  }

  lemma SameOrigin(f: Function, i: nat, k: nat, g: Function, j: nat, l: nat, files: seq<File>)
    requires GoFiles(files) && Origin(f, files, i, k) && Origin(g, files, j, l)
    requires files[i].path == files[j].path && f.name == g.name
    ensures f == g
  {
    assert i == j;
    var fs := files[i].functions;
    assert GoNames(fs);
    if k < l { NamesBecomeDistinct(fs, k, l); } else if l < k { NamesBecomeDistinct(fs, l, k); }
  }

  // ---------- the exception list ----------

  datatype Fault = WrongFieldCount | InvalidLength | DuplicateException

  const MAX_INT: int := 0x7fff_ffff_ffff_ffff

  // Go's strconv.Atoi on 64 bits.
  function Atoi(s: string): Option<int> {
    var digits := if s != "" && (s[0] == '+' || s[0] == '-') then s[1..] else s;
    if digits == "" || !AllDigits(digits) then None
    else
      var v: int := if s[0] == '-' then 0 - DigitsValue(digits) else DigitsValue(digits);
      if -MAX_INT - 1 <= v <= MAX_INT then Some(v) else None
  }

  predicate Skipped(fields: seq<string>) { fields == [] || "#" <= fields[0] }

  predicate Entry(fields: seq<string>, language: string) {
    !Skipped(fields) && |fields| == 4 && fields[0] == language
  }

  function EntryKey(fields: seq<string>): string
    requires |fields| == 4
  {
    Key(fields[1], fields[2])
  }

  ghost predicate HasLine(key: string, lines: seq<seq<string>>, n: nat, language: string)
    requires n <= |lines|
  {
    exists i :: 0 <= i < n && Entry(lines[i], language) && EntryKey(lines[i]) == key
  }

  ghost predicate Repeats(lines: seq<seq<string>>, k: nat, language: string)
    requires k < |lines| && Entry(lines[k], language)
  {
    HasLine(EntryKey(lines[k]), lines, k, language)
  }

  ghost function FaultAt(lines: seq<seq<string>>, k: nat, language: string): Option<Fault>
    requires k < |lines|
  {
    var fields := lines[k];
    if Skipped(fields) then None
    else if |fields| != 4 then Some(WrongFieldCount)
    else if fields[0] != language then None
    else if Atoi(fields[3]).None? || Atoi(fields[3]).value <= 0 then Some(InvalidLength)
    else if Repeats(lines, k, language) then Some(DuplicateException)
    else None
  }

  predicate RecordsLine(m: map<string, int>, fields: seq<string>)
    requires |fields| == 4
  {
    EntryKey(fields) in m && Atoi(fields[3]) == Some(m[EntryKey(fields)])
  }

  // `m` records the exceptions of the first `n` lines.
  ghost predicate Records(m: map<string, int>, lines: seq<seq<string>>, n: nat, language: string)
    requires n <= |lines|
  {
    && (forall key :: key in m ==> m[key] > 0 && HasLine(key, lines, n, language))
    && (forall i :: 0 <= i < n && Entry(lines[i], language) ==> RecordsLine(m, lines[i]))
  }

  ghost predicate Sound(lines: seq<seq<string>>, n: nat, language: string)
    requires n <= |lines|
  {
    forall k :: 0 <= k < n ==> FaultAt(lines, k, language).None?
  }

  // The list is read exactly when no line is at fault, and otherwise the first fault is reported.
  method ReadExceptions(lines: seq<seq<string>>, language: string) returns (r: Result<map<string, int>, Fault>)
    ensures r.Ok? <==> Sound(lines, |lines|, language)
    ensures r.Ok? ==> Records(r.value, lines, |lines|, language)
    ensures r.Err? ==> exists k :: 0 <= k < |lines| && Sound(lines, k, language) && FaultAt(lines, k, language) == Some(r.error)
  {
    var exceptions: map<string, int> := map[];
    var k := 0;
    while k < |lines|
      invariant 0 <= k <= |lines|
      invariant Sound(lines, k, language)
      invariant Records(exceptions, lines, k, language)
    {
      var fields := lines[k];
      if !Skipped(fields) {
        if |fields| != 4 {
          assert FaultAt(lines, k, language) == Some(WrongFieldCount);
          return Err(WrongFieldCount);
        }
        if fields[0] == language {
          var length := Atoi(fields[3]);
          if length.None? || length.value <= 0 {
            assert FaultAt(lines, k, language) == Some(InvalidLength);
            return Err(InvalidLength);
          }
          var key := EntryKey(fields);
          if key in exceptions {
            assert FaultAt(lines, k, language) == Some(DuplicateException);
            return Err(DuplicateException);
          }
          ExtendRecords(exceptions, lines, k, language);
          exceptions := exceptions[key := length.value];
        }
      }
      assert FaultAt(lines, k, language).None?;
      k := k + 1;
    }
    r := Ok(exceptions);
  }

  lemma ExtendRecords(m: map<string, int>, lines: seq<seq<string>>, n: nat, language: string)
    requires n < |lines| && Records(m, lines, n, language) && Entry(lines[n], language)
    requires Atoi(lines[n][3]).Some? && Atoi(lines[n][3]).value > 0 && EntryKey(lines[n]) !in m
    ensures Records(m[EntryKey(lines[n]) := Atoi(lines[n][3]).value], lines, n + 1, language)
    ensures !Repeats(lines, n, language)
  {
    var key := EntryKey(lines[n]);
    forall i | 0 <= i < n && Entry(lines[i], language) ensures EntryKey(lines[i]) != key { }
    var m' := m[key := Atoi(lines[n][3]).value];
    forall other | other in m' ensures m'[other] > 0 && HasLine(other, lines, n + 1, language) {
      if other == key {
        assert EntryKey(lines[n]) == other;
      } else {
        assert HasLine(other, lines, n, language);
      }
    }
    forall i | 0 <= i < n + 1 && Entry(lines[i], language) ensures RecordsLine(m', lines[i]) {
      if i < n { assert RecordsLine(m, lines[i]); }
    }
  }

  // ---------- the gate ----------

  predicate Over(f: Function, maxLines: int) { f.length > maxLines }

  predicate Complains(f: Function, exceptions: map<string, int>, maxLines: int) {
    var key := KeyOf(f);
    if key in exceptions then !Over(f, maxLines) || f.length > exceptions[key] else Over(f, maxLines)
  }

  ghost predicate Passes(functions: seq<Function>, exceptions: map<string, int>, maxLines: int) {
    && NoComplaints(functions, exceptions, maxLines)
    && (forall key :: key in exceptions ==> exists f :: f in functions && KeyOf(f) == key)
  }

  function Listed(functions: seq<Function>, exceptions: map<string, int>, maxLines: int, report: bool): seq<Function> {
    if functions == [] then []
    else
      var f := functions[|functions| - 1];
      var before := Listed(functions[..|functions| - 1], exceptions, maxLines, report);
      if report || (Over(f, maxLines) && Complains(f, exceptions, maxLines)) then before + [f] else before
  }

  // The exceptions no function was looked up by.
  method CountStale(exceptions: map<string, int>, seen: set<string>) returns (stale: nat)
    ensures stale == 0 <==> exceptions.Keys <= seen
  {
    stale := 0;
    var keys := exceptions.Keys;
    ghost var done: set<string> := {};
    while keys != {}
      invariant keys + done == exceptions.Keys
      invariant stale == 0 <==> done <= seen
      decreases keys
    {
      var key :| key in keys;
      keys := keys - {key};
      done := done + {key};
      if key !in seen { stale := stale + 1; }
    }
  }

  ghost predicate NoComplaints(functions: seq<Function>, exceptions: map<string, int>, maxLines: int) {
    forall f :: f in functions ==> !Complains(f, exceptions, maxLines)
  }

  ghost predicate LookedUp(functions: seq<Function>, exceptions: map<string, int>, seen: set<string>) {
    forall key :: key in seen <==> key in exceptions && exists f :: f in functions && KeyOf(f) == key
  }

  lemma OneMore(functions: seq<Function>, f: Function, exceptions: map<string, int>, maxLines: int, report: bool, seen: set<string>)
    requires LookedUp(functions, exceptions, seen)
    ensures LookedUp(functions + [f], exceptions, if KeyOf(f) in exceptions then seen + {KeyOf(f)} else seen)
    ensures NoComplaints(functions + [f], exceptions, maxLines) <==>
              NoComplaints(functions, exceptions, maxLines) && !Complains(f, exceptions, maxLines)
    ensures Listed(functions + [f], exceptions, maxLines, report) ==
              Listed(functions, exceptions, maxLines, report)
              + if report || (Over(f, maxLines) && Complains(f, exceptions, maxLines)) then [f] else []
  {
    var more := functions + [f];
    assert more[..|functions|] == functions && more[|functions|] == f;
    assert forall g :: g in more <==> g in functions || g == f;
    forall key | key in exceptions && key != KeyOf(f)
      ensures (exists g :: g in more && KeyOf(g) == key) <==> exists g :: g in functions && KeyOf(g) == key
    {
    }
  }

  method Gate(functions: seq<Function>, exceptions: map<string, int>, maxLines: int, report: bool)
      returns (passed: bool, printed: seq<Function>)
    ensures passed <==> report || Passes(functions, exceptions, maxLines)
    ensures printed == Listed(functions, exceptions, maxLines, report)
  {
    var violations: nat := 0;
    var seen: set<string> := {};
    printed := [];
    var i := 0;
    while i < |functions|
      invariant 0 <= i <= |functions|
      invariant printed == Listed(functions[..i], exceptions, maxLines, report)
      invariant LookedUp(functions[..i], exceptions, seen)
      invariant !report ==> (violations == 0 <==> NoComplaints(functions[..i], exceptions, maxLines))
    {
      var f := functions[i];
      OneMore(functions[..i], f, exceptions, maxLines, report, seen);
      assert functions[..i + 1] == functions[..i] + [f];
      var key := KeyOf(f);
      var excepted := key in exceptions;
      i := i + 1;
      if excepted { seen := seen + {key}; }
      if !report && excepted && f.length <= maxLines {
        violations := violations + 1;
        continue;
      }
      if !report && (f.length <= maxLines || (excepted && f.length <= exceptions[key])) {
        continue;
      }
      printed := printed + [f];
      if f.length > maxLines && (!excepted || f.length > exceptions[key]) {
        violations := violations + 1;
      }
    }
    assert functions[..i] == functions;
    if !report {
      var stale := CountStale(exceptions, seen);
      violations := violations + stale;
    }
    passed := report || violations == 0;
  }

  ghost function OverKeys(functions: seq<Function>, maxLines: int): set<string> {
    set f | f in functions && Over(f, maxLines) :: KeyOf(f)
  }

  ghost predicate WithinRecorded(functions: seq<Function>, exceptions: map<string, int>, maxLines: int) {
    forall f :: f in functions && Over(f, maxLines) ==> KeyOf(f) in exceptions && f.length <= exceptions[KeyOf(f)]
  }

  lemma PassingMeansExact(functions: seq<Function>, exceptions: map<string, int>, maxLines: int)
    requires Passes(functions, exceptions, maxLines)
    ensures exceptions.Keys == OverKeys(functions, maxLines) && WithinRecorded(functions, exceptions, maxLines)
  {
    assert forall f :: f in functions ==> !Complains(f, exceptions, maxLines);
    forall key | key in exceptions ensures key in OverKeys(functions, maxLines) {
      var f :| f in functions && KeyOf(f) == key;
      assert !Complains(f, exceptions, maxLines);
    }
  }

  lemma ExactMeansPassing(functions: seq<Function>, exceptions: map<string, int>, maxLines: int)
    requires KeysIdentify(functions)
    requires exceptions.Keys == OverKeys(functions, maxLines) && WithinRecorded(functions, exceptions, maxLines)
    ensures Passes(functions, exceptions, maxLines)
  {
    forall key | key in exceptions ensures exists f :: f in functions && KeyOf(f) == key {
      assert key in OverKeys(functions, maxLines);
    }
    forall f | f in functions ensures !Complains(f, exceptions, maxLines) {
      if KeyOf(f) in OverKeys(functions, maxLines) {
        var g :| g in functions && Over(g, maxLines) && KeyOf(g) == KeyOf(f);
        assert g == f;
      }
    }
  }

  // The gate passes exactly when the exceptions are the functions over the limit and each keeps its recorded length.
  lemma GatePassesExactly(files: seq<File>, functions: seq<Function>, exceptions: map<string, int>, maxLines: int)
    requires GoFiles(files) && multiset(functions) == multiset(Found(files)) // the order does not matter
    ensures Passes(functions, exceptions, maxLines) <==>
              exceptions.Keys == OverKeys(functions, maxLines) && WithinRecorded(functions, exceptions, maxLines)
  {
    KeysIdentifyFunctions(files);
    forall f ensures f in functions <==> f in Found(files) {
      assert f in multiset(functions) <==> f in multiset(Found(files));
    }
    if Passes(functions, exceptions, maxLines) { PassingMeansExact(functions, exceptions, maxLines); }
    if exceptions.Keys == OverKeys(functions, maxLines) && WithinRecorded(functions, exceptions, maxLines) {
      ExactMeansPassing(functions, exceptions, maxLines);
    }
  }

  // Raising the limit never asks for a new exception: dropping those that are no longer needed passes.
  lemma RaisingTheLimitOnlyDropsExceptions(files: seq<File>, exceptions: map<string, int>, low: int, high: int)
    requires GoFiles(files) && low <= high && Passes(Found(files), exceptions, low)
    ensures Passes(Found(files), map key | key in exceptions && key in OverKeys(Found(files), high) :: exceptions[key], high)
  {
    var fs := Found(files);
    var fewer := map key | key in exceptions && key in OverKeys(fs, high) :: exceptions[key];
    GatePassesExactly(files, fs, exceptions, low);
    assert fewer.Keys == OverKeys(fs, high);
    GatePassesExactly(files, fs, fewer, high);
  }
}
