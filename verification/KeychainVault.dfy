/** apple_credentials.rs: replacing the protected machine credentials, verifying the write, and putting the
    previous set back.

    The backend answers reads and writes as it likes: it may fail, lie, or store something else. `trace` records
    every answer. Parsing JSON and UTF-8 are given. */
module KeychainVault {
  import opened Wrappers
  import opened Credentials
  import opened VaultJson

  const MAX_VAULT_BYTES: nat := 128 * 1024

  type Stored = Bytes

  datatype Json = Json(parse: Stored -> Option<Document>, render: Document -> Stored)

  ghost predicate ReadsBack(j: Json) { forall d: Document :: j.parse(j.render(d)) == Some(d) }

  // Documents are written as compact JSON; the parser may accept other spellings as well.
  ghost predicate WritesCompactly(j: Json, c: Codec) {
    forall d: Document :: j.render(d) == Render(d, c)
  }

  datatype DecodeError = TooLarge | Unreadable | NeedsNewerApp | Invalid

  function Decode(b: Stored, j: Json, c: Codec): Result<seq<Credential>, DecodeError> {
    if |b| > MAX_VAULT_BYTES then Err(TooLarge) else
    match j.parse(b)
    case None => Err(Unreadable)
    case Some(d) =>
      if d.version != 1 then Err(NeedsNewerApp)
      else if !ValidSet(d.credentials, c) then Err(Invalid)
      else Ok(d.credentials)
  }

  function Encode(s: seq<Credential>, j: Json, c: Codec): Option<Stored> {
    if !ValidSet(s, c) then None else
    var b := j.render(Document(1, s));
    if |b| > MAX_VAULT_BYTES then None else Some(b)
  }

  lemma DecodeUndoesEncode(s: seq<Credential>, j: Json, c: Codec)
    requires ReadsBack(j) && Encode(s, j, c).Some?
    ensures Decode(Encode(s, j, c).value, j, c) == Ok(s)
  {
    assert j.parse(j.render(Document(1, s))) == Some(Document(1, s));
  }

  datatype Event = Read(answer: Result<Option<Stored>, ()>) | Wrote(bytes: Stored, ok: bool)

  // What a read of the store says: an absent vault is an empty set.
  function Says(answer: Result<Option<Stored>, ()>, j: Json, c: Codec): Option<seq<Credential>> {
    match answer
    case Err(_) => None
    case Ok(None) => Some([])
    case Ok(Some(b)) => match Decode(b, j, c) case Ok(s) => Some(s) case Err(_) => None
  }

  datatype Outcome =
    | Saved
    | InvalidRequest
    | PreviousUnreadable
    | RequestTooLarge
    | WriteFailed
    | PreviousTooLarge
    | RestoreFailed
    | RestoreUnreadable
    | RestoreMismatch
    | Restored

  // What happened after a verification failed.
  ghost predicate TakenBack(r: Outcome, t: seq<Event>, previous: seq<Credential>, j: Json, c: Codec) {
    if r.PreviousTooLarge? then t == [] && Encode(previous, j, c).None?
    else
      && Encode(previous, j, c).Some? && |t| >= 1
      && t[0] == Wrote(Encode(previous, j, c).value, !r.RestoreFailed?)
      && if r.RestoreFailed? then |t| == 1
         else
           && |t| == 2 && t[1].Read?
           && (r.RestoreUnreadable? || r.Restored? || r.RestoreMismatch?)
           && (r.RestoreUnreadable? <==> Says(t[1].answer, j, c).None?)
           && (r.Restored? <==> Says(t[1].answer, j, c) == Some(previous))
  }

  // Everything that happened, outcome by outcome.
  ghost predicate Shape(r: Outcome, t: seq<Event>, requested: seq<Credential>, j: Json, c: Codec) {
    if r.InvalidRequest? then t == [] && !ValidSet(requested, c)
    else
      && ValidSet(requested, c) && |t| >= 1 && t[0].Read?
      && var previous := Says(t[0].answer, j, c);
         if r.PreviousUnreadable? then |t| == 1 && previous.None?
         else
           && previous.Some?
           && if r.RequestTooLarge? then |t| == 1 && Encode(requested, j, c).None?
              else
                && Encode(requested, j, c).Some? && |t| >= 2 && t[1] == Wrote(Encode(requested, j, c).value, !r.WriteFailed?)
                && if r.WriteFailed? then |t| == 2
                   else
                     && |t| >= 3 && t[2].Read?
                     && (r.Saved? <==> Says(t[2].answer, j, c) == Some(requested))
                     && if r.Saved? then |t| == 3 else TakenBack(r, t[3..], previous.value, j, c)
  }

  class Backend {
    ghost var trace: seq<Event>

    constructor ()
      ensures trace == []
    {
      trace := [];
    }

    method ReadVault() returns (answer: Result<Option<Stored>, ()>)
      modifies this
      ensures trace == old(trace) + [Read(answer)]
    {
      answer :| true;
      trace := trace + [Read(answer)];
    }

    method WriteVault(bytes: Stored) returns (ok: bool)
      modifies this
      ensures trace == old(trace) + [Wrote(bytes, ok)]
    {
      ok := *;
      trace := trace + [Wrote(bytes, ok)];
    }

    method ReadStore(j: Json, c: Codec) returns (r: Option<seq<Credential>>, ghost answer: Result<Option<Stored>, ()>)
      modifies this
      ensures trace == old(trace) + [Read(answer)] && r == Says(answer, j, c)
    {
      var a := ReadVault();
      answer := a;
      r := Says(a, j, c);
    }

    method SaveStore(requested: seq<Credential>, j: Json, c: Codec) returns (r: Outcome, ghost events: seq<Event>)
      modifies this
      ensures trace == old(trace) + events && Shape(r, events, requested, j, c)
    {
      events := [];
      var expected := ValidateCredentials(requested, c);
      if expected.Err? { return InvalidRequest, events; }
      var previous;
      ghost var a;
      previous, a := ReadStore(j, c);
      events := events + [Read(a)];
      if previous.None? { return PreviousUnreadable, events; }
      var bytes := Encode(requested, j, c);
      if bytes.None? { return RequestTooLarge, events; }
      var ok := WriteVault(bytes.value);
      events := events + [Wrote(bytes.value, ok)];
      if !ok { return WriteFailed, events; }
      var stored;
      stored, a := ReadStore(j, c);
      events := events + [Read(a)];
      if stored == Some(requested) { return Saved, events; }

      ghost var more;
      r, more := TakeBack(previous.value, j, c);
      ghost var first := events;
      events := events + more;
      assert events[3..] == more && events[..3] == first;
    }

    // Write the previous set back and look whether it is there.
    method TakeBack(previous: seq<Credential>, j: Json, c: Codec) returns (r: Outcome, ghost events: seq<Event>)
      modifies this
      ensures trace == old(trace) + events && TakenBack(r, events, previous, j, c)
      ensures r.PreviousTooLarge? || r.RestoreFailed? || r.RestoreUnreadable? || r.RestoreMismatch? || r.Restored?
    {
      events := [];
      var bytes := Encode(previous, j, c);
      if bytes.None? { return PreviousTooLarge, events; }
      var ok := WriteVault(bytes.value);
      events := events + [Wrote(bytes.value, ok)];
      if !ok { return RestoreFailed, events; }
      var restored;
      ghost var a;
      restored, a := ReadStore(j, c);
      events := events + [Read(a)];
      if restored.None? { return RestoreUnreadable, events; }
      r := if restored == Some(previous) then Restored else RestoreMismatch;
    }
  }

  // ---------- what every backend guarantees ----------

  function Writes(t: seq<Event>): nat {
    if t == [] then 0 else Writes(t[..|t| - 1]) + if t[|t| - 1].Wrote? then 1 else 0
  }

  lemma {:induction false} WritesAreFew(t: seq<Event>)
    requires forall k :: 0 <= k < |t| && t[k].Wrote? ==> k == 1 || k == 3
    ensures Writes(t) <= (if |t| > 1 then 1 else 0) + if |t| > 3 then 1 else 0
  {
    if t != [] { WritesAreFew(t[..|t| - 1]); }
  }

  lemma ShapeIsShort(r: Outcome, t: seq<Event>, requested: seq<Credential>, j: Json, c: Codec)
    requires Shape(r, t, requested, j, c)
    ensures |t| <= 5 && forall k :: 0 <= k < |t| && t[k].Wrote? ==> k == 1 || k == 3
  {
    if |t| > 3 {
      assert t[3] == t[3..][0];
      if |t| > 4 { assert t[4] == t[3..][1]; }
    }
  }

  // Whatever the backend does: nothing is written unless the existing vault decoded, at most two writes happen,
  // "saved" means the last read was the requested set and "restored" means it was the previous one.
  lemma SaveStoreIsCautious(r: Outcome, t: seq<Event>, requested: seq<Credential>, j: Json, c: Codec)
    requires Shape(r, t, requested, j, c)
    ensures Writes(t) > 0 ==> t[0].Read? && Says(t[0].answer, j, c).Some?
    ensures Writes(t) <= 2
    ensures r.Saved? ==> t != [] && t[|t| - 1].Read? && Says(t[|t| - 1].answer, j, c) == Some(requested)
    ensures r.Restored? ==> t != [] && t[|t| - 1].Read? && Says(t[|t| - 1].answer, j, c) == Says(t[0].answer, j, c)
  {
    ShapeIsShort(r, t, requested, j, c);
    WritesAreFew(t);
  }

  // ---------- what more a better backend guarantees ----------

  // Reads that succeed tell the truth and failed writes change nothing; a successful write may store anything.
  ghost predicate Truthful(t: seq<Event>, content: seq<Option<Stored>>) {
    && |content| == |t| + 1
    && forall k :: 0 <= k < |t| ==>
         match t[k]
         case Read(answer) => content[k + 1] == content[k] && (answer.Ok? ==> answer.value == content[k])
         case Wrote(_, ok) => !ok ==> content[k + 1] == content[k]
  }

  lemma TrueReading(t: seq<Event>, content: seq<Option<Stored>>, k: nat)
    requires Truthful(t, content) && k < |t| && t[k].Read? && t[k].answer.Ok?
    ensures t[k].answer.value == content[k] == content[k + 1]
  {
  }

  // ... and a successful write stores what it was given, and reads do not fail.
  ghost predicate Faithful(t: seq<Event>, content: seq<Option<Stored>>) {
    && Truthful(t, content)
    && forall k :: 0 <= k < |t| ==>
         match t[k]
         case Read(answer) => answer.Ok?
         case Wrote(bytes, ok) => ok ==> content[k + 1] == Some(bytes)
  }

  // On a truthful backend the report is about the store itself: saved and restored name what it now holds, and a
  // refusal before or at the first write leaves it untouched.
  lemma ReportsMatchTheStore(r: Outcome, t: seq<Event>, content: seq<Option<Stored>>, requested: seq<Credential>, j: Json, c: Codec)
    requires Shape(r, t, requested, j, c) && Truthful(t, content)
    ensures r.Saved? ==> Says(Ok(content[|t|]), j, c) == Some(requested)
    ensures r.Restored? ==> Says(Ok(content[0]), j, c).Some? && Says(Ok(content[|t|]), j, c) == Says(Ok(content[0]), j, c)
    ensures r.InvalidRequest? || r.PreviousUnreadable? || r.RequestTooLarge? || r.WriteFailed? ==> content[|t|] == content[0]
  {
    if r.Restored? {
      SaidSetsAreValid(t[0].answer, j, c);
      SaidSetsAreValid(t[4].answer, j, c);
      TrueReading(t, content, 0);
      TrueReading(t, content, 4);
      assert t[4].Read? && t[4].answer == Ok(content[5]);
    }
  }

  // On a faithful backend a save never needs to be taken back: it succeeds or was refused without effect.
  lemma FaithfulSavesHold(r: Outcome, t: seq<Event>, content: seq<Option<Stored>>, requested: seq<Credential>, j: Json, c: Codec)
    requires ReadsBack(j) && Shape(r, t, requested, j, c) && Faithful(t, content)
    ensures r.Saved? || r.InvalidRequest? || r.PreviousUnreadable? || r.RequestTooLarge? || r.WriteFailed?
  {
    if |t| >= 3 {
      assert t[1].Wrote? && t[2].Read?;
      assert content[2] == Some(t[1].bytes) && content[3] == content[2];
      DecodeUndoesEncode(requested, j, c);
    }
  }

  lemma RenderedShort(s: seq<Credential>, j: Json, c: Codec)
    requires PlainUtf8(c) && WritesCompactly(j, c) && ValidSet(s, c)
    ensures |j.render(Document(1, s))| <= LARGEST_VAULT
  {
    ValidSetsAreShort(s, c);
  }

  lemma ShortSetsEncode(s: seq<Credential>, j: Json, c: Codec)
    requires ValidSet(s, c) && |j.render(Document(1, s))| <= LARGEST_VAULT
    ensures Encode(s, j, c).Some? && |Encode(s, j, c).value| <= LARGEST_VAULT
  {
  }

  // The size limit never turns a valid set away.
  lemma ValidSetsEncode(s: seq<Credential>, j: Json, c: Codec)
    requires PlainUtf8(c) && WritesCompactly(j, c) && ValidSet(s, c)
    ensures Encode(s, j, c).Some? && |Encode(s, j, c).value| <= LARGEST_VAULT
  {
    RenderedShort(s, j, c);
    ShortSetsEncode(s, j, c);
  }

  // What a read reports is a valid set, an absent vault being the empty one.
  lemma SaidSetsAreValid(answer: Result<Option<Stored>, ()>, j: Json, c: Codec)
    ensures Says(answer, j, c).Some? ==> ValidSet(Says(answer, j, c).value, c)
    ensures answer == Ok(None) ==> Says(answer, j, c) == Some([])
    ensures answer.Err? ==> Says(answer, j, c).None?
  {
  }

  // Neither size refusal is ever reported, and a save that could not be verified always writes the previous set back.
  lemma FailedVerificationIsTakenBack(r: Outcome, t: seq<Event>, requested: seq<Credential>, j: Json, c: Codec)
    requires PlainUtf8(c) && WritesCompactly(j, c) && Shape(r, t, requested, j, c)
    ensures !r.RequestTooLarge? && !r.PreviousTooLarge?
    ensures |t| >= 3 && !r.Saved? ==>
              && Says(t[0].answer, j, c).Some? && Encode(Says(t[0].answer, j, c).value, j, c).Some?
              && |t| >= 4 && t[3] == Wrote(Encode(Says(t[0].answer, j, c).value, j, c).value, !r.RestoreFailed?)
  {
    if !r.InvalidRequest? {
      ValidSetsEncode(requested, j, c);
      SaidSetsAreValid(t[0].answer, j, c);
      if Says(t[0].answer, j, c).Some? {
        ValidSetsEncode(Says(t[0].answer, j, c).value, j, c);
      }
    }
  }
}
