/** The hash-chained audit journal: appending, verifying, and what a tail hash pins down. */
module Audit {
  import opened Wrappers
  import Store

  const AUDIT_VERSION := 1
  const MAX_FILE_BYTES := 0x400_0000
  const MAX_LINE_BYTES := 0x1_0000
  const NEWLINE: byte := 10

  datatype Payload = Payload(version: int, sequence: nat, time: int, actor: string, action: string, subject: string, previousHash: string)

  datatype Event = Event(payload: Payload, hash: string)

  /** The text encodings of events and of the part of an event that is hashed. */
  datatype Codec = Codec(event: Event -> Bytes, decode: Bytes -> Option<Event>, payload: Payload -> Bytes)

  predicate ValidText(s: string) {
    s != "" && |s| <= 256 && forall i :: 0 <= i < |s| ==> s[i] >= ' ' && s[i] != '\U{7F}'
  }

  function EventHash(c: Codec, hash: Bytes -> string, p: Payload): string {
    "sha256:" + hash(c.payload(p))
  }

  predicate Continuation(c: char) { '\U{80}' <= c <= '\U{BF}' }

  /** How many bytes the character at the front takes in UTF-8, 0 if it is malformed; a `char` stands for a byte. */
  function Utf8Length(s: string): nat
    requires s != ""
  {
    var n, b := |s|, s[0];
    if b < '\U{80}' then 1
    else if n >= 2 && '\U{C2}' <= b <= '\U{DF}' && Continuation(s[1]) then 2
    else if n >= 3 && '\U{E0}' <= b <= '\U{EF}' && Continuation(s[1]) && Continuation(s[2])
            && (b == '\U{E0}' ==> s[1] >= '\U{A0}') && (b == '\U{ED}' ==> s[1] < '\U{A0}') then 3
    else if n >= 4 && '\U{F0}' <= b <= '\U{F4}' && Continuation(s[1]) && Continuation(s[2]) && Continuation(s[3])
            && (b == '\U{F0}' ==> s[1] >= '\U{90}') && (b == '\U{F4}' ==> s[1] < '\U{90}') then 4
    else 0
  }

  predicate ValidUtf8(s: string) {
    s == "" || (0 < Utf8Length(s) <= |s| && ValidUtf8(s[Utf8Length(s)..]))
  }

  predicate CleanPayload(p: Payload) {
    ValidUtf8(p.actor) && ValidUtf8(p.action) && ValidUtf8(p.subject)
  }

  /** The encoding is one line within the limit. */
  ghost predicate Fits(c: Codec, e: Event) {
    NEWLINE !in c.event(e) && 0 < |c.event(e)| < MAX_LINE_BYTES
  }

  /** An event whose line reads back as it is. */
  ghost predicate Storable(c: Codec, e: Event) {
    Fits(c, e) && c.decode(c.event(e)) == Some(e)
  }

  /**
   What the text format does with an event.  It keeps valid UTF-8.  An invalid byte is written as
   an escape, reads back as another text, and that text is encoded differently when it is hashed
   again; the hash field itself is kept.
   */
  ghost predicate Formats(c: Codec, e: Event) {
    && Fits(c, e)
    && if CleanPayload(e.payload) then c.decode(c.event(e)) == Some(e)
       else Garbles(c, e)
  }

  ghost predicate Garbles(c: Codec, e: Event) {
    var read := c.decode(c.event(e));
    read.Some? ==> read.value.hash == e.hash && c.payload(read.value.payload) != c.payload(e.payload)
  }

  /** The message hashed and the one that would be read back do not collide. */
  ghost predicate ReadingDiffers(c: Codec, hash: Bytes -> string, e: Event) {
    var read := c.decode(c.event(e));
    read.Some? ==> !Store.Collides(hash, c.payload(e.payload), c.payload(read.value.payload))
  }

  function LastHash(events: seq<Event>): string {
    if events == [] then "" else events[|events| - 1].hash
  }

  /** `e` is a correct next event after `done`. */
  predicate Follows(c: Codec, hash: Bytes -> string, done: seq<Event>, e: Event) {
    var p := e.payload;
    && p.version == AUDIT_VERSION && p.sequence == |done| + 1 && p.previousHash == LastHash(done)
    && p.time != 0 && ValidText(p.actor) && ValidText(p.action) && ValidText(p.subject)
    && e.hash == EventHash(c, hash, p)
  }

  /** A correct chain from the start. */
  predicate Chain(c: Codec, hash: Bytes -> string, events: seq<Event>) {
    forall i :: 0 <= i < |events| ==> Follows(c, hash, events[..i], events[i])
  }

  // ----- Verifying a file -----

  function LineEnd(file: Bytes): (i: nat)
    ensures i <= |file| && NEWLINE !in file[..i] && (i < |file| ==> file[i] == NEWLINE)
  {
    if file == [] || file[0] == NEWLINE then 0 else 1 + LineEnd(file[1..])
  }

  /** The events of a file whose every line continues the chain, or nothing. */
  function Verified(c: Codec, hash: Bytes -> string, file: Bytes, done: seq<Event>): (r: Option<seq<Event>>)
    ensures r.Some? ==> done <= r.value
    decreases |file|
  {
    if file == [] then Some(done)
    else
      var i := LineEnd(file);
      if i >= MAX_LINE_BYTES || i == |file| then None
      else
        match c.decode(file[..i])
        case None => None
        case Some(e) => if Follows(c, hash, done, e) then Verified(c, hash, file[i + 1..], done + [e]) else None
  }

  method VerifyAuditJournal(file: Bytes, c: Codec, hash: Bytes -> string) returns (r: Result<seq<Event>, ()>)
    ensures r.Ok? <==> |file| <= MAX_FILE_BYTES && Verified(c, hash, file, []).Some?
    ensures r.Ok? ==> r.value == Verified(c, hash, file, []).value && Chain(c, hash, r.value) && |file| <= 64 * 1024 * 1024
  {
    if |file| > MAX_FILE_BYTES {
      return Err(());
    }
    var events: seq<Event> := [];
    var previous := "";
    var rest := file;
    while rest != []
      invariant Verified(c, hash, file, []) == Verified(c, hash, rest, events)
      invariant previous == LastHash(events) && Chain(c, hash, events)
      decreases |rest|
    {
      var i := LineEnd(rest);
      if i >= MAX_LINE_BYTES {
        return Err(());
      }
      if i == |rest| {
        return Err(());
      }
      var decoded := c.decode(rest[..i]);
      if decoded.None? {
        return Err(());
      }
      var event := decoded.value;
      var p := event.payload;
      if p.version != AUDIT_VERSION || p.sequence != |events| + 1 || p.previousHash != previous || p.time == 0
         || !ValidText(p.actor) || !ValidText(p.action) || !ValidText(p.subject) || event.hash != EventHash(c, hash, p)
      {
        return Err(());
      }
      ChainExtends(c, hash, events, event);
      events := events + [event];
      previous := event.hash;
      rest := rest[i + 1..];
    }
    return Ok(events);
  }

  lemma ChainExtends(c: Codec, hash: Bytes -> string, done: seq<Event>, e: Event)
    ensures Chain(c, hash, done + [e]) <==> Chain(c, hash, done) && Follows(c, hash, done, e)
  {
    var all := done + [e];
    assert forall i :: 0 <= i < |done| ==> all[..i] == done[..i] && all[i] == done[i];
    assert all[..|done|] == done && all[|done|] == e;
  }

  /** A text of at most 256 bytes without control characters. */
  predicate PlainText(s: string) {
    0 < |s| <= 256 && forall i :: 0 <= i < |s| ==> s[i] as int >= 32 && s[i] as int != 127
  }

  /** The event at a place: numbered from one, linked to the one before, dated, well formed and hashed. */
  ghost predicate PlainLink(c: Codec, hash: Bytes -> string, events: seq<Event>, i: nat)
    requires i < |events|
  {
    var p := events[i].payload;
    && p.version == 1 && p.sequence == i + 1 && p.previousHash == (if i == 0 then "" else events[i - 1].hash)
    && p.time != 0 && PlainText(p.actor) && PlainText(p.action) && PlainText(p.subject)
    && events[i].hash == "sha256:" + hash(c.payload(p))
  }

  /** A chain is a list of such events. */
  lemma ChainMeans(c: Codec, hash: Bytes -> string, events: seq<Event>)
    ensures Chain(c, hash, events) <==> forall i :: 0 <= i < |events| ==> PlainLink(c, hash, events, i)
  {
    hide Follows, PlainLink;
    forall i | 0 <= i < |events| ensures Follows(c, hash, events[..i], events[i]) <==> PlainLink(c, hash, events, i) {
      LinkMeans(c, hash, events, i);
    }
  }

  lemma LinkMeans(c: Codec, hash: Bytes -> string, events: seq<Event>, i: nat)
    requires i < |events|
    ensures Follows(c, hash, events[..i], events[i]) <==> PlainLink(c, hash, events, i)
  {
    hide PlainText, ValidText;
    var p := events[i].payload;
    PlainIsValid(p.actor);
    PlainIsValid(p.action);
    PlainIsValid(p.subject);
    assert i > 0 ==> events[..i][i - 1] == events[i - 1];
  }

  lemma PlainIsValid(s: string)
    ensures ValidText(s) <==> PlainText(s)
  {
    assert ' ' as int == 32 && '\U{7F}' as int == 127;
    forall i | 0 <= i < |s| ensures (s[i] >= ' ' && s[i] != '\U{7F}') <==> (s[i] as int >= 32 && s[i] as int != 127) {
      assert s[i] as int == 127 ==> s[i] == '\U{7F}';
    }
  }

  // ----- What appending writes -----

  function Encode(c: Codec, events: seq<Event>): Bytes {
    if events == [] then [] else Encode(c, events[..|events| - 1]) + c.event(events[|events| - 1]) + [NEWLINE]
  }

  lemma {:induction false} EncodeCons(c: Codec, e: Event, events: seq<Event>)
    ensures Encode(c, [e] + events) == c.event(e) + [NEWLINE] + Encode(c, events)
  {
    var all := [e] + events;
    if events == [] {
      assert all[..0] == [];
    } else {
      var n := |events| - 1;
      assert all[..|all| - 1] == [e] + events[..n];
      EncodeCons(c, e, events[..n]);
    }
  }

  lemma {:induction false} LineEndAt(a: Bytes, b: Bytes)
    requires NEWLINE !in a
    ensures LineEnd(a + [NEWLINE] + b) == |a|
  {
    if a != [] {
      assert (a + [NEWLINE] + b)[1..] == a[1..] + [NEWLINE] + b;
      LineEndAt(a[1..], b);
    }
  }

  ghost predicate AllStorable(c: Codec, events: seq<Event>) {
    forall e :: e in events ==> Storable(c, e)
  }

  /** A file of written events verifies exactly when they form a chain, and returns them in order. */
  lemma {:induction false} VerifyEncoded(c: Codec, hash: Bytes -> string, done: seq<Event>, events: seq<Event>)
    requires AllStorable(c, events) && Chain(c, hash, done)
    ensures Verified(c, hash, Encode(c, events), done) == if Chain(c, hash, done + events) then Some(done + events) else None
    decreases events
  {
    hide Follows, Chain, LineEnd;
    if events == [] {
      assert done + events == done;
    } else {
      var e, rest := events[0], events[1..];
      assert events == [e] + rest && e in events;
      EncodeCons(c, e, rest);
      VerifiedLine(c, hash, c.event(e), Encode(c, rest), done);
      ChainExtends(c, hash, done, e);
      assert done + events == done + [e] + rest;
      if Follows(c, hash, done, e) {
        VerifyEncoded(c, hash, done + [e], rest);
      } else {
        ChainBroken(c, hash, done, e, rest);
      }
    }
  }

  lemma ChainBroken(c: Codec, hash: Bytes -> string, done: seq<Event>, e: Event, rest: seq<Event>)
    requires !Follows(c, hash, done, e)
    ensures !Chain(c, hash, done + [e] + rest)
  {
    var all := done + [e] + rest;
    assert all[..|done|] == done && all[|done|] == e;
  }

  // ----- Writing -----

  /**
   How a write ends: durable; not begun; whole but with the sync or the close failing; or cut
   short after some bytes, never reaching the newline.
   */
  datatype Outcome = Durable | NotWritten | Unsynced | Torn(bytes: nat)

  datatype Act =
    | Append(actor: string, action: string, subject: string, now: int, outcome: Outcome)
    | Reopen

  /** The journal as a value: the file, and the tail this process remembers while it has the journal open. */
  datatype Journal = Journal(file: Bytes, sequence: nat, lastHash: string, open: bool)

  function Line(c: Codec, e: Event): Bytes {
    c.event(e) + [NEWLINE]
  }

  predicate TextsValid(a: Act) {
    a.Append? && ValidText(a.actor) && ValidText(a.action) && ValidText(a.subject)
  }

  function NextEvent(c: Codec, hash: Bytes -> string, j: Journal, a: Act): Event
    requires a.Append?
  {
    var p := Payload(AUDIT_VERSION, j.sequence + 1, a.now, a.actor, a.action, a.subject, j.lastHash);
    Event(p, EventHash(c, hash, p))
  }

  /** The bytes that reach the file. */
  function Put(c: Codec, e: Event, outcome: Outcome): Bytes {
    match outcome
    case Durable => Line(c, e)
    case Unsynced => Line(c, e)
    case NotWritten => []
    case Torn(k) => c.event(e)[..if k <= |c.event(e)| then k else |c.event(e)|]
  }

  /** The verifier's verdict on a file. */
  predicate Accepted(c: Codec, hash: Bytes -> string, file: Bytes) {
    |file| <= MAX_FILE_BYTES && Verified(c, hash, file, []).Some?
  }

  /** One append or reopening; a journal that cannot be opened takes no more events. */
  function Do(c: Codec, hash: Bytes -> string, j: Journal, a: Act): Journal {
    match a
    case Reopen =>
      if Accepted(c, hash, j.file) then
        var events := Verified(c, hash, j.file, []).value;
        Journal(j.file, |events|, LastHash(events), true)
      else j.(open := false)
    case Append(_, _, _, _, outcome) =>
      if !j.open || !TextsValid(a) then j
      else
        var e := NextEvent(c, hash, j, a);
        var k := j.(file := j.file + Put(c, e, outcome));
        if outcome.Durable? then k.(sequence := j.sequence + 1, lastHash := e.hash) else k
  }

  function Run(c: Codec, hash: Bytes -> string, j: Journal, acts: seq<Act>): Journal {
    if acts == [] then j else Do(c, hash, Run(c, hash, j, acts[..|acts| - 1]), acts[|acts| - 1])
  }

  /** The event records who did what to what and when, its place in the chain and its own hash. */
  predicate Says(c: Codec, hash: Bytes -> string, e: Event, actor: string, action: string, subject: string, time: int, sequence: nat, previous: string) {
    && e.payload.version == 1 && e.payload.actor == actor && e.payload.action == action && e.payload.subject == subject && e.payload.time == time
    && e.payload.sequence == sequence && e.payload.previousHash == previous
    && e.hash == "sha256:" + hash(c.payload(e.payload))
  }

  class AuditJournal {
    const codec: Codec
    const hash: Bytes -> string
    var file: Bytes
    var sequence: nat
    var lastHash: string

    function Value(): Journal
      reads this
    {
      Journal(file, sequence, lastHash, true)
    }

    /** Remember the tail of a verified file. */
    constructor (codec: Codec, hash: Bytes -> string, file: Bytes, events: seq<Event>)
      requires Verified(codec, hash, file, []) == Some(events)
      ensures this.codec == codec && this.hash == hash
      ensures Value() == Journal(file, |events|, LastHash(events), true)
    {
      this.codec := codec;
      this.hash := hash;
      this.file := file;
      sequence := |events|;
      lastHash := LastHash(events);
    }

    /** Add one event; the remembered tail moves only when the write is durable. */
    method Append(actor: string, action: string, subject: string, now: int, outcome: Outcome) returns (r: Result<Event, ()>)
      modifies this
      ensures var a := Act.Append(actor, action, subject, now, outcome);
              && Value() == Do(codec, hash, old(Value()), a)
              && (r.Ok? <==> TextsValid(a) && outcome.Durable?)
              && (r.Ok? ==> r.value == NextEvent(codec, hash, old(Value()), a))
      ensures r.Ok? ==> Says(codec, hash, r.value, actor, action, subject, now, old(sequence) + 1, old(lastHash))
      ensures r.Ok? ==> file == old(file) + (codec.event(r.value) + [10]) && sequence == old(sequence) + 1 && lastHash == r.value.hash
    {
      if !ValidText(actor) || !ValidText(action) || !ValidText(subject) {
        return Err(());
      }
      var payload := Payload(AUDIT_VERSION, sequence + 1, now, actor, action, subject, lastHash);
      var event := Event(payload, EventHash(codec, hash, payload));
      file := file + Put(codec, event, outcome);
      if !outcome.Durable? {
        return Err(());
      }
      sequence, lastHash := payload.sequence, event.hash;
      return Ok(event);
    }
  }

  /** `OpenAuditJournal`: an unverifiable file is refused. */
  method OpenAuditJournal(file: Bytes, c: Codec, hash: Bytes -> string) returns (r: Result<AuditJournal, ()>)
    ensures r.Ok? <==> Accepted(c, hash, file)
    ensures r.Ok? ==> fresh(r.value) && r.value.codec == c && r.value.hash == hash
                      && forall old_: Journal :: old_.file == file ==> r.value.Value() == Do(c, hash, old_, Reopen)
  {
    var events := VerifyAuditJournal(file, c, hash);
    if events.Err? {
      return Err(());
    }
    var j := new AuditJournal(c, hash, file, events.value);
    return Ok(j);
  }

  // ----- When a journal stays verifiable -----

  /** Some bytes reach the file. */
  predicate Writes(a: Act) {
    TextsValid(a) && !a.outcome.NotWritten? && a.outcome != Torn(0)
  }

  predicate Tears(a: Act) {
    Writes(a) && a.outcome.Torn?
  }

  predicate WritesUnsynced(a: Act) {
    Writes(a) && a.outcome.Unsynced?
  }

  /** The texts are valid UTF-8, which `Append` does not check. */
  predicate CleanTexts(a: Act) {
    a.Append? && ValidUtf8(a.actor) && ValidUtf8(a.action) && ValidUtf8(a.subject)
  }

  /**
   Only valid UTF-8 is written, no write is cut short, and after one that was not synced the
   journal is reopened before the next.
   */
  ghost predicate Careful(acts: seq<Act>) {
    && (forall i :: 0 <= i < |acts| && Writes(acts[i]) ==> CleanTexts(acts[i]))
    && (forall i :: 0 <= i < |acts| ==> !Tears(acts[i]))
    && (forall i, k :: 0 <= i < k < |acts| && WritesUnsynced(acts[i]) && Writes(acts[k]) ==> ReopenedBetween(acts, i, k))
  }

  predicate ReopenedBetween(acts: seq<Act>, i: nat, k: nat)
    requires k <= |acts|
  {
    exists m :: i < m < k && acts[m].Reopen?
  }

  /** The same, read off step by step. */
  datatype Health = Clean | Pending | Broken

  function HealthAfter(acts: seq<Act>): Health {
    if acts == [] then Clean
    else
      HealthStep(HealthAfter(acts[..|acts| - 1]), acts[|acts| - 1])
  }

  function HealthStep(h: Health, a: Act): Health {
    if h.Broken? then Broken
    else if a.Reopen? then Clean
    else if !Writes(a) then h
    else if a.outcome.Torn? || h.Pending? || !CleanTexts(a) then Broken
    else if a.outcome.Unsynced? then Pending
    else Clean
  }

  /** An unsynced write is still waiting for a reopening. */
  ghost predicate Waiting(acts: seq<Act>) {
    exists i :: 0 <= i < |acts| && WritesUnsynced(acts[i]) && !ReopenedBetween(acts, i, |acts|)
  }

  lemma WaitingStep(acts: seq<Act>, a: Act)
    ensures Waiting(acts + [a]) <==> !a.Reopen? && (Waiting(acts) || WritesUnsynced(a))
  {
    hide ValidText;
    var more, n := acts + [a], |acts|;
    assert more[n] == a && forall i :: 0 <= i < n ==> more[i] == acts[i];
    forall i | 0 <= i < n ensures ReopenedBetween(more, i, n + 1) <==> ReopenedBetween(acts, i, n) || a.Reopen? {
      if a.Reopen? {
        assert i < n < n + 1 && more[n].Reopen?;
      }
      if ReopenedBetween(acts, i, n) {
        var m :| i < m < n && acts[m].Reopen?;
        assert more[m].Reopen?;
      }
    }
    assert !ReopenedBetween(more, n, n + 1);
    if Waiting(acts) && !a.Reopen? {
      var i :| 0 <= i < |acts| && WritesUnsynced(acts[i]) && !ReopenedBetween(acts, i, |acts|);
      assert WritesUnsynced(more[i]);
    }
    if WritesUnsynced(a) {
      assert WritesUnsynced(more[n]);
    }
    if Waiting(more) {
      var i :| 0 <= i < |more| && WritesUnsynced(more[i]) && !ReopenedBetween(more, i, |more|);
      assert i < n ==> WritesUnsynced(acts[i]);
    }
  }

  lemma CarefulStep(acts: seq<Act>, a: Act)
    ensures Careful(acts + [a]) <==>
            Careful(acts) && !Tears(a) && (Writes(a) ==> CleanTexts(a)) && !(Waiting(acts) && Writes(a))
  {
    hide Writes, WritesUnsynced, Tears, CleanTexts;
    var more, n := acts + [a], |acts|;
    assert more[n] == a && forall i :: 0 <= i < n ==> more[i] == acts[i];
    forall i, k | 0 <= i < k <= n ensures ReopenedBetween(more, i, k) <==> ReopenedBetween(acts, i, k) {
      SameBetween(acts, a, i, k);
    }
  }

  lemma SameBetween(acts: seq<Act>, a: Act, i: nat, k: nat)
    requires i < k <= |acts|
    ensures ReopenedBetween(acts + [a], i, k) <==> ReopenedBetween(acts, i, k)
  {
    if ReopenedBetween(acts, i, k) {
      var m :| i < m < k && acts[m].Reopen?;
      assert (acts + [a])[m].Reopen?;
    }
  }

  lemma {:induction false} HealthIff(acts: seq<Act>)
    ensures HealthAfter(acts).Broken? <==> !Careful(acts)
    ensures Careful(acts) ==> (HealthAfter(acts).Pending? <==> Waiting(acts))
  {
    hide Careful, Waiting, CleanTexts;
    if acts == [] {
      assert Careful([]) && !Waiting([]) by { NothingDone(); }
    } else {
      var n := |acts| - 1;
      assert acts == acts[..n] + [acts[n]];
      HealthIff(acts[..n]);
      CarefulStep(acts[..n], acts[n]);
      WaitingStep(acts[..n], acts[n]);
    }
  }

  lemma NothingDone()
    ensures Careful([]) && !Waiting([])
  {
  }

  // ----- What leftovers of cut writes do -----

  /** The first `bytes` bytes of an event's line. */
  datatype Cut = Cut(event: Event, bytes: nat)

  ghost predicate GoodCuts(c: Codec, cuts: seq<Cut>) {
    forall i :: 0 <= i < |cuts| ==> Fits(c, cuts[i].event) && 0 < cuts[i].bytes <= |c.event(cuts[i].event)|
  }

  ghost function Debris(c: Codec, cuts: seq<Cut>): Bytes
    requires GoodCuts(c, cuts)
  {
    if cuts == [] then []
    else Debris(c, cuts[..|cuts| - 1]) + c.event(cuts[|cuts| - 1].event)[..cuts[|cuts| - 1].bytes]
  }

  /** An event written after leftovers on the same line is not read as one event: the text format is self-delimiting. */
  ghost predicate Separates(c: Codec) {
    forall cuts, e :: cuts != [] && GoodCuts(c, cuts) && Fits(c, e) ==> c.decode(Debris(c, cuts) + c.event(e)).None?
  }

  lemma {:induction false} DebrisIsPartOfALine(c: Codec, cuts: seq<Cut>)
    requires GoodCuts(c, cuts)
    ensures NEWLINE !in Debris(c, cuts) && (cuts != [] ==> Debris(c, cuts) != [])
  {
    if cuts != [] {
      var n := |cuts| - 1;
      DebrisIsPartOfALine(c, cuts[..n]);
      assert Fits(c, cuts[n].event) && 0 < cuts[n].bytes <= |c.event(cuts[n].event)|;
      var tail := c.event(cuts[n].event)[..cuts[n].bytes];
      assert forall x :: x in tail ==> x in c.event(cuts[n].event);
    }
  }

  /** Nothing that is appended can make the file verify again. */
  ghost predicate Dead(c: Codec, hash: Bytes -> string, file: Bytes) {
    forall more :: Verified(c, hash, file + more, []).None?
  }

  /** The file ends in the leftovers of cut writes. */
  ghost predicate Littered(c: Codec, hash: Bytes -> string, file: Bytes) {
    exists good, cuts :: LitteredWith(c, hash, file, good, cuts)
  }

  ghost predicate LitteredWith(c: Codec, hash: Bytes -> string, file: Bytes, good: Bytes, cuts: seq<Cut>) {
    && Verified(c, hash, good, []).Some? && cuts != [] && GoodCuts(c, cuts) && file == good + Debris(c, cuts)
  }

  ghost predicate Ruined(c: Codec, hash: Bytes -> string, file: Bytes) {
    Dead(c, hash, file) || Littered(c, hash, file)
  }

  /** A verified beginning is verified once; what follows continues its chain. */
  lemma {:induction false} VerifiedSplit(c: Codec, hash: Bytes -> string, a: Bytes, b: Bytes, done: seq<Event>)
    requires Verified(c, hash, a, done).Some?
    ensures Verified(c, hash, a + b, done) == Verified(c, hash, b, Verified(c, hash, a, done).value)
    decreases |a|
  {
    if a == [] {
      assert a + b == b;
      VerifiedNothing(c, hash, done);
    } else {
      var i := LineEnd(a);
      assert i < |a|;
      hide Follows, Verified, LineEnd;
      var line, rest := a[..i], a[i + 1..];
      assert a == line + [NEWLINE] + rest;
      FirstLineOfBoth(line, rest, b);
      VerifiedLine(c, hash, line, rest, done);
      VerifiedLine(c, hash, line, rest + b, done);
      VerifiedSplit(c, hash, rest, b, done + [c.decode(line).value]);
    }
  }

  lemma RuinedIsRefused(c: Codec, hash: Bytes -> string, file: Bytes)
    requires Ruined(c, hash, file)
    ensures Verified(c, hash, file, []).None?
  {
    hide Verified;
    if Dead(c, hash, file) {
      assert file + [] == file;
    } else {
      var good, cuts :| LitteredWith(c, hash, file, good, cuts);
      DebrisIsPartOfALine(c, cuts);
      VerifiedSplit(c, hash, good, Debris(c, cuts), []);
      Unterminated(c, hash, Debris(c, cuts), Verified(c, hash, good, []).value);
    }
  }

  lemma Unterminated(c: Codec, hash: Bytes -> string, b: Bytes, done: seq<Event>)
    requires b != [] && NEWLINE !in b
    ensures Verified(c, hash, b, done).None?
  {
    assert LineEnd(b) == |b|;
  }

  lemma DeadStays(c: Codec, hash: Bytes -> string, file: Bytes, b: Bytes)
    requires Dead(c, hash, file)
    ensures Dead(c, hash, file + b)
  {
    forall more ensures Verified(c, hash, file + b + more, []).None? {
      assert file + b + more == file + (b + more);
    }
  }

  /** A whole line that does not continue the chain is fatal. */
  lemma WrongLineKills(c: Codec, hash: Bytes -> string, good: Bytes, line: Bytes)
    requires Verified(c, hash, good, []).Some? && NEWLINE !in line
    requires c.decode(line).None? || !Follows(c, hash, Verified(c, hash, good, []).value, c.decode(line).value)
    ensures Dead(c, hash, good + (line + [NEWLINE]))
  {
    hide Verified, Follows;
    forall more ensures Verified(c, hash, good + (line + [NEWLINE]) + more, []).None? {
      assert good + (line + [NEWLINE]) + more == good + (line + [NEWLINE] + more);
      VerifiedSplit(c, hash, good, line + [NEWLINE] + more, []);
      VerifiedLine(c, hash, line, more, Verified(c, hash, good, []).value);
    }
  }

  lemma MoreDebris(c: Codec, cuts: seq<Cut>, e: Event, k: nat)
    requires GoodCuts(c, cuts) && Fits(c, e) && 0 < k <= |c.event(e)|
    ensures GoodCuts(c, cuts + [Cut(e, k)])
    ensures Debris(c, cuts + [Cut(e, k)]) == Debris(c, cuts) + c.event(e)[..k]
  {
    hide Fits;
    var more := cuts + [Cut(e, k)];
    assert more[..|cuts|] == cuts && forall i :: 0 <= i < |cuts| ==> more[i] == cuts[i];
  }

  lemma NoDebris(c: Codec)
    ensures GoodCuts(c, []) && Debris(c, []) == []
  {
  }

  lemma Joins(a: Bytes, b: Bytes, d: Bytes)
    ensures a + b + d == a + (b + d) && a + [] == a
  {
  }

  /** A cut write litters a verified file, and adds to the litter of a littered one. */
  lemma CutLitters(c: Codec, hash: Bytes -> string, file: Bytes, e: Event, k: nat)
    requires Fits(c, e) && 0 < k <= |c.event(e)|
    requires Verified(c, hash, file, []).Some? || Littered(c, hash, file)
    ensures Littered(c, hash, file + c.event(e)[..k])
  {
    hide Verified, Fits, Debris;
    var good, cuts := file, [];
    NoDebris(c);
    Joins(file, [], []);
    if Verified(c, hash, file, []).None? {
      good, cuts :| LitteredWith(c, hash, file, good, cuts);
    }
    var more := cuts + [Cut(e, k)];
    MoreDebris(c, cuts, e, k);
    assert file == good + Debris(c, cuts);
    Joins(good, Debris(c, cuts), c.event(e)[..k]);
    assert LitteredWith(c, hash, file + c.event(e)[..k], good, more);
  }

  /** A whole line after litter is fatal. */
  lemma LineAfterLitter(c: Codec, hash: Bytes -> string, file: Bytes, e: Event)
    requires Separates(c) && Fits(c, e) && Littered(c, hash, file)
    ensures Dead(c, hash, file + Line(c, e))
  {
    hide Verified, Dead;
    var good, cuts :| LitteredWith(c, hash, file, good, cuts);
    DebrisIsPartOfALine(c, cuts);
    var line := Debris(c, cuts) + c.event(e);
    WrongLineKills(c, hash, good, line);
    assert file + Line(c, e) == good + (line + [NEWLINE]);
  }

  lemma RuinedStays(c: Codec, hash: Bytes -> string, file: Bytes, e: Event, outcome: Outcome)
    requires Separates(c) && Fits(c, e) && Ruined(c, hash, file)
    ensures Ruined(c, hash, file + Put(c, e, outcome))
  {
    hide Separates, Fits, Dead, Littered;
    var b := Put(c, e, outcome);
    if Dead(c, hash, file) {
      DeadStays(c, hash, file, b);
    } else if b == [] {
      assert file + b == file;
    } else if outcome.Torn? {
      CutLitters(c, hash, file, e, |b|);
    } else {
      LineAfterLitter(c, hash, file, e);
    }
  }

  // ----- The exact condition -----

  /** The journal is open on a verified file and remembers its tail. */
  ghost predicate Opened(c: Codec, hash: Bytes -> string, j: Journal, events: seq<Event>) {
    && j.open && |j.file| <= MAX_FILE_BYTES && Verified(c, hash, j.file, []) == Some(events)
    && j.sequence == |events| && j.lastHash == LastHash(events)
  }

  /** The clock runs, and the text format does to every event of the acts what it does to any. */
  ghost predicate Storing(c: Codec, hash: Bytes -> string, j: Journal, acts: seq<Act>) {
    forall i :: 0 <= i < |acts| && TextsValid(acts[i]) ==>
      acts[i].now != 0 && Written(c, hash, NextEvent(c, hash, Run(c, hash, j, acts[..i]), acts[i]))
  }

  ghost predicate Written(c: Codec, hash: Bytes -> string, e: Event) {
    Formats(c, e) && ReadingDiffers(c, hash, e)
  }

  /** The events whose lines reach the file whole. */
  function Added(c: Codec, hash: Bytes -> string, j: Journal, acts: seq<Act>): seq<Event> {
    if acts == [] then []
    else
      var n := |acts| - 1;
      var before, a := Run(c, hash, j, acts[..n]), acts[n];
      Added(c, hash, j, acts[..n])
      + if before.open && Writes(a) && !a.outcome.Torn? then [NextEvent(c, hash, before, a)] else []
  }

  /** What the health says about the file and the remembered tail. */
  ghost predicate Explains(c: Codec, hash: Bytes -> string, h: Health, j: Journal, events: seq<Event>) {
    if !j.open then |j.file| > MAX_FILE_BYTES || (h.Broken? && Ruined(c, hash, j.file))
    else
      match h
      case Clean => Verified(c, hash, j.file, []) == Some(events) && j.sequence == |events| && j.lastHash == LastHash(events)
      case Pending => Verified(c, hash, j.file, []) == Some(events) && j.sequence + 1 == |events|
      case Broken => Ruined(c, hash, j.file)
  }

  lemma ReopenExplained(c: Codec, hash: Bytes -> string, h: Health, j: Journal, events: seq<Event>)
    requires Explains(c, hash, h, j, events)
    ensures Explains(c, hash, HealthStep(h, Reopen), Do(c, hash, j, Reopen), events)
  {
    hide Verified, Ruined;
    if Ruined(c, hash, j.file) {
      RuinedIsRefused(c, hash, j.file);
    }
  }

  /** A next event after an exact tail continues the chain; its line extends the file. */
  lemma NextFollows(c: Codec, hash: Bytes -> string, j: Journal, events: seq<Event>, a: Act)
    requires Verified(c, hash, j.file, []) == Some(events) && j.sequence == |events| && j.lastHash == LastHash(events)
    requires TextsValid(a) && CleanTexts(a) && a.now != 0 && Written(c, hash, NextEvent(c, hash, j, a))
    ensures Verified(c, hash, j.file + Line(c, NextEvent(c, hash, j, a)), []) == Some(events + [NextEvent(c, hash, j, a)])
  {
    var e := NextEvent(c, hash, j, a);
    assert Follows(c, hash, events, e) && Storable(c, e);
    hide Verified, Follows, ValidText, ValidUtf8;
    VerifiedSplit(c, hash, j.file, Line(c, e), []);
    VerifiedLine(c, hash, c.event(e), [], events);
    assert c.event(e) + [NEWLINE] + [] == Line(c, e);
    VerifiedNothing(c, hash, events + [e]);
  }

  /** After an unsynced write the same number is given again, which the verifier refuses. */
  lemma SameNumberKills(c: Codec, hash: Bytes -> string, j: Journal, events: seq<Event>, a: Act)
    requires Verified(c, hash, j.file, []) == Some(events) && j.sequence + 1 == |events|
    requires a.Append? && CleanTexts(a) && Written(c, hash, NextEvent(c, hash, j, a))
    ensures Dead(c, hash, j.file + Line(c, NextEvent(c, hash, j, a)))
  {
    var e := NextEvent(c, hash, j, a);
    assert !Follows(c, hash, events, e);
    hide Verified, Follows, Dead, ValidUtf8;
    WrongLineKills(c, hash, j.file, c.event(e));
  }

  /** A text that is not valid UTF-8 is hashed as one message and read back as another, which the verifier refuses. */
  lemma InvalidTextKills(c: Codec, hash: Bytes -> string, j: Journal, events: seq<Event>, a: Act)
    requires Verified(c, hash, j.file, []) == Some(events)
    requires a.Append? && !CleanTexts(a) && Written(c, hash, NextEvent(c, hash, j, a))
    ensures Dead(c, hash, j.file + Line(c, NextEvent(c, hash, j, a)))
  {
    hide Verified, Dead, ValidUtf8, ValidText;
    var e := NextEvent(c, hash, j, a);
    var read := c.decode(c.event(e));
    if read.Some? && Follows(c, hash, events, read.value) {
      HashDeterminesMessage(c, hash, e.payload, read.value.payload);
      assert false;
    }
    WrongLineKills(c, hash, j.file, c.event(e));
  }

  lemma AppendExplained(c: Codec, hash: Bytes -> string, h: Health, j: Journal, events: seq<Event>, a: Act)
    requires Separates(c) && Explains(c, hash, h, j, events) && a.Append?
    requires TextsValid(a) ==> a.now != 0 && Written(c, hash, NextEvent(c, hash, j, a))
    ensures var more := events + if j.open && Writes(a) && !a.outcome.Torn? then [NextEvent(c, hash, j, a)] else [];
            Explains(c, hash, HealthStep(h, a), Do(c, hash, j, a), more)
  {
    hide Verified, Separates, Dead, Littered, ValidText, ValidUtf8, EventHash, TextsValid, ReadingDiffers, Garbles;
    assert events + [] == events;
    if j.open && TextsValid(a) {
      var e := NextEvent(c, hash, j, a);
      if Ruined(c, hash, j.file) {
        RuinedStays(c, hash, j.file, e, a.outcome);
        RuinedIsRefused(c, hash, j.file);
      } else if !Writes(a) {
        assert j.file + [] == j.file;
      } else if a.outcome.Torn? {
        CutLitters(c, hash, j.file, e, |Put(c, e, a.outcome)|);
      } else if !CleanTexts(a) {
        InvalidTextKills(c, hash, j, events, a);
      } else if h.Pending? {
        SameNumberKills(c, hash, j, events, a);
      } else {
        NextFollows(c, hash, j, events, a);
      }
    }
  }

  lemma {:induction false} RunExplained(c: Codec, hash: Bytes -> string, j: Journal, events: seq<Event>, acts: seq<Act>)
    requires Separates(c) && Opened(c, hash, j, events) && Storing(c, hash, j, acts)
    ensures Explains(c, hash, HealthAfter(acts), Run(c, hash, j, acts), events + Added(c, hash, j, acts))
    decreases acts
  {
    hide Verified, Separates, Explains, Written, ValidText, ValidUtf8, NextEvent, Do;
    if acts == [] {
      assert events + [] == events;
      Untouched(c, hash, j, events);
    } else {
      var n := |acts| - 1;
      var front, a := acts[..n], acts[n];
      StoringFront(c, hash, j, acts);
      RunExplained(c, hash, j, events, front);
      var before, done := Run(c, hash, j, front), events + Added(c, hash, j, front);
      assert HealthAfter(acts) == HealthStep(HealthAfter(front), a);
      if a.Reopen? {
        ReopenExplained(c, hash, HealthAfter(front), before, done);
        assert events + (Added(c, hash, j, front) + []) == done;
      } else {
        AppendExplained(c, hash, HealthAfter(front), before, done, a);
        assert events + Added(c, hash, j, acts) ==
               done + if before.open && Writes(a) && !a.outcome.Torn? then [NextEvent(c, hash, before, a)] else [];
      }
    }
  }

  lemma Untouched(c: Codec, hash: Bytes -> string, j: Journal, events: seq<Event>)
    requires Opened(c, hash, j, events)
    ensures Explains(c, hash, Clean, j, events)
  {
  }

  lemma StoringFront(c: Codec, hash: Bytes -> string, j: Journal, acts: seq<Act>)
    requires Storing(c, hash, j, acts) && acts != []
    ensures Storing(c, hash, j, acts[..|acts| - 1])
    ensures var n := |acts| - 1;
            TextsValid(acts[n]) ==> acts[n].now != 0 && Written(c, hash, NextEvent(c, hash, Run(c, hash, j, acts[..n]), acts[n]))
  {
    hide Run, Written, ValidText, NextEvent;
    var front := acts[..|acts| - 1];
    forall i | 0 <= i < |front| && TextsValid(front[i])
      ensures front[i].now != 0 && Written(c, hash, NextEvent(c, hash, Run(c, hash, j, front[..i]), front[i]))
    {
      assert front[..i] == acts[..i] && front[i] == acts[i];
    }
  }

  /**
   Exactly when a journal stays verifiable, from any verified file, over appends that end in any
   way and reopenings: the file is within the verifier's limit, every text written is valid
   UTF-8, no write was cut short, and no event was written after an unsynced one without
   reopening in between.
   */
  lemma VerifiableIff(c: Codec, hash: Bytes -> string, j: Journal, events: seq<Event>, acts: seq<Act>)
    requires Separates(c) && Opened(c, hash, j, events) && Storing(c, hash, j, acts)
    ensures Accepted(c, hash, Run(c, hash, j, acts).file) <==>
            |Run(c, hash, j, acts).file| <= MAX_FILE_BYTES && Careful(acts)
  {
    hide Verified, Separates, Storing, Ruined, Careful, Run, Added;
    RunExplained(c, hash, j, events, acts);
    HealthIff(acts);
    var file := Run(c, hash, j, acts).file;
    if Ruined(c, hash, file) {
      RuinedIsRefused(c, hash, file);
    }
  }

  /** As long as it verifies, the file holds the events it started with and exactly those appended whole since, in order. */
  lemma AppendedEventsVerify(c: Codec, hash: Bytes -> string, j: Journal, events: seq<Event>, acts: seq<Act>)
    requires Separates(c) && Opened(c, hash, j, events) && Storing(c, hash, j, acts)
    requires Accepted(c, hash, Run(c, hash, j, acts).file)
    ensures Verified(c, hash, Run(c, hash, j, acts).file, []) == Some(events + Added(c, hash, j, acts))
  {
    hide Verified, Separates, Storing, Ruined, Run, Added;
    RunExplained(c, hash, j, events, acts);
    var file := Run(c, hash, j, acts).file;
    if Ruined(c, hash, file) {
      RuinedIsRefused(c, hash, file);
    }
  }

  // ----- What is read back, in terms of the appends -----

  /** The appends whose whole line reaches the file. */
  function WrittenWhole(acts: seq<Act>): seq<Act> {
    if acts == [] then []
    else
      var a := acts[|acts| - 1];
      WrittenWhole(acts[..|acts| - 1]) + if Writes(a) && !a.outcome.Torn? then [a] else []
  }

  /** The event says what the append was given. */
  predicate Records(e: Event, a: Act) {
    a.Append? && e.payload.actor == a.actor && e.payload.action == a.action && e.payload.subject == a.subject && e.payload.time == a.now
  }

  predicate RecordsAll(events: seq<Event>, acts: seq<Act>) {
    |events| == |acts| && forall i :: 0 <= i < |events| ==> Records(events[i], acts[i])
  }

  ghost predicate OpenThroughout(c: Codec, hash: Bytes -> string, j: Journal, acts: seq<Act>) {
    forall k :: 0 <= k <= |acts| ==> Run(c, hash, j, acts[..k]).open
  }

  lemma {:induction false} AddedRecordAppends(c: Codec, hash: Bytes -> string, j: Journal, acts: seq<Act>)
    requires OpenThroughout(c, hash, j, acts)
    ensures RecordsAll(Added(c, hash, j, acts), WrittenWhole(acts))
  {
    hide Run, ValidText, EventHash;
    if acts != [] {
      var n := |acts| - 1;
      var front := acts[..n];
      forall k | 0 <= k <= |front| ensures Run(c, hash, j, front[..k]).open {
        assert front[..k] == acts[..k];
      }
      AddedRecordAppends(c, hash, j, front);
      assert Run(c, hash, j, front).open;
    }
  }

  lemma {:induction false} FileGrows(c: Codec, hash: Bytes -> string, j: Journal, acts: seq<Act>, k: nat)
    requires k <= |acts|
    ensures |Run(c, hash, j, acts[..k]).file| <= |Run(c, hash, j, acts).file|
    decreases |acts|
  {
    hide Verified, Accepted, ValidText;
    if k == |acts| {
      assert acts[..k] == acts;
    } else {
      var front := acts[..|acts| - 1];
      FileGrows(c, hash, j, front, k);
      assert front[..k] == acts[..k];
    }
  }

  lemma {:induction false} BrokenStays(acts: seq<Act>, k: nat)
    requires k <= |acts| && HealthAfter(acts[..k]).Broken?
    ensures HealthAfter(acts).Broken?
    decreases |acts|
  {
    if k == |acts| {
      assert acts[..k] == acts;
    } else {
      var front := acts[..|acts| - 1];
      assert front[..k] == acts[..k];
      BrokenStays(front, k);
    }
  }

  lemma StoringPrefix(c: Codec, hash: Bytes -> string, j: Journal, acts: seq<Act>, k: nat)
    requires Storing(c, hash, j, acts) && k <= |acts|
    ensures Storing(c, hash, j, acts[..k])
  {
    hide Run, Written, ValidText, NextEvent;
    var front := acts[..k];
    forall i | 0 <= i < |front| && TextsValid(front[i])
      ensures front[i].now != 0 && Written(c, hash, NextEvent(c, hash, Run(c, hash, j, front[..i]), front[i]))
    {
      assert front[..i] == acts[..i] && front[i] == acts[i];
    }
  }

  /** A journal that is accepted in the end was never refused on the way. */
  lemma AcceptedStaysOpen(c: Codec, hash: Bytes -> string, j: Journal, events: seq<Event>, acts: seq<Act>)
    requires Separates(c) && Opened(c, hash, j, events) && Storing(c, hash, j, acts)
    requires Accepted(c, hash, Run(c, hash, j, acts).file)
    ensures OpenThroughout(c, hash, j, acts)
  {
    hide Verified, Separates, Storing, Ruined, Careful, Run, Added, HealthAfter;
    VerifiableIff(c, hash, j, events, acts);
    HealthIff(acts);
    forall k | 0 <= k <= |acts| ensures Run(c, hash, j, acts[..k]).open {
      StoringPrefix(c, hash, j, acts, k);
      RunExplained(c, hash, j, events, acts[..k]);
      FileGrows(c, hash, j, acts, k);
      if HealthAfter(acts[..k]).Broken? {
        BrokenStays(acts, k);
      }
    }
  }

  /**
   What the verifier reads from an accepted file: the events it started with, then one event per
   append written whole, in order, with that append's actor, action, subject and time.
   */
  lemma ReadBackIsWhatWasAppended(c: Codec, hash: Bytes -> string, j: Journal, events: seq<Event>, acts: seq<Act>)
    requires Separates(c) && Opened(c, hash, j, events) && Storing(c, hash, j, acts)
    requires Accepted(c, hash, Run(c, hash, j, acts).file)
    ensures var read := Verified(c, hash, Run(c, hash, j, acts).file, []);
            && read.Some? && events <= read.value
            && RecordsAll(read.value[|events|..], WrittenWhole(acts))
  {
    hide Verified, Separates, Storing, Run, Added, RecordsAll, OpenThroughout;
    AppendedEventsVerify(c, hash, j, events, acts);
    AcceptedStaysOpen(c, hash, j, events, acts);
    AddedRecordAppends(c, hash, j, acts);
    assert (events + Added(c, hash, j, acts))[|events|..] == Added(c, hash, j, acts);
  }

  // ----- Four ways to lose a journal -----

  /** A single byte FF passes the text check; one durable append of it and the journal cannot be opened again. */
  lemma InvalidTextExample(c: Codec, hash: Bytes -> string, j: Journal, events: seq<Event>)
    requires Separates(c) && Opened(c, hash, j, events)
    requires Storing(c, hash, j, [Append("\U{FF}", "a", "a", 1, Durable)])
    ensures var a := Append("\U{FF}", "a", "a", 1, Durable);
            && TextsValid(a) && !Tears(a) && !WritesUnsynced(a)
            && Run(c, hash, j, [a]).sequence == j.sequence + 1
            && !Accepted(c, hash, Run(c, hash, j, [a]).file)
  {
    var a := Append("\U{FF}", "a", "a", 1, Durable);
    assert Utf8Length(a.actor) == 0;
    assert TextsValid(a) && Writes(a) && !CleanTexts(a);
    assert [a][..0] == [] && [a][0] == a;
    hide Separates, Storing, Accepted, ValidText, ValidUtf8;
    VerifiableIff(c, hash, j, events, [a]);
  }

  /** From any open journal: an unsynced append and one more are refused, unless the journal was reopened in between. */
  lemma UnsyncedExample(c: Codec, hash: Bytes -> string, j: Journal, events: seq<Event>, a: Act)
    requires Separates(c) && Opened(c, hash, j, events) && TextsValid(a)
    requires Storing(c, hash, j, [a.(outcome := Unsynced), a.(outcome := Durable)])
    requires Storing(c, hash, j, [a.(outcome := Unsynced), Reopen, a.(outcome := Durable)])
    ensures !Accepted(c, hash, Run(c, hash, j, [a.(outcome := Unsynced), a.(outcome := Durable)]).file)
    ensures var file := Run(c, hash, j, [a.(outcome := Unsynced), Reopen, a.(outcome := Durable)]).file;
            CleanTexts(a) && |file| <= MAX_FILE_BYTES ==> Accepted(c, hash, file)
  {
    hide Separates, Opened, Storing, Accepted, Run, ValidText, ValidUtf8, Careful;
    var u, d := a.(outcome := Unsynced), a.(outcome := Durable);
    assert Writes(u) && Writes(d);
    assert !Careful([u, d]) by { TwoActs(u, d); }
    if CleanTexts(a) {
      ThreeActs(u, d);
    }
    VerifiableIff(c, hash, j, events, [u, d]);
    VerifiableIff(c, hash, j, events, [u, Reopen, d]);
  }

  lemma TwoActs(u: Act, d: Act)
    requires WritesUnsynced(u) && Writes(d)
    ensures !Careful([u, d])
  {
    hide Writes;
    var acts := [u, d];
    assert WritesUnsynced(acts[0]) && Writes(acts[1]) && !ReopenedBetween(acts, 0, 1);
  }

  lemma ThreeActs(u: Act, d: Act)
    requires WritesUnsynced(u) && Writes(d) && d.outcome.Durable? && CleanTexts(u) && CleanTexts(d)
    ensures Careful([u, Reopen, d])
  {
    hide ValidText, ValidUtf8;
    var acts := [u, Reopen, d];
    assert acts[1].Reopen?;
    assert ReopenedBetween(acts, 0, 2);
  }

  /** From any open journal: one write cut short is refused, and so is everything after it. */
  lemma TornExample(c: Codec, hash: Bytes -> string, j: Journal, events: seq<Event>, a: Act, later: seq<Act>)
    requires Separates(c) && Opened(c, hash, j, events) && Tears(a) && Storing(c, hash, j, [a] + later)
    ensures !Accepted(c, hash, Run(c, hash, j, [a] + later).file)
  {
    hide Separates, Opened, Storing, Accepted, Run, Tears;
    assert ([a] + later)[0] == a;
    VerifiableIff(c, hash, j, events, [a] + later);
  }

  /** A durable append is not kept from passing the verifier's limit. */
  lemma PastTheLimitExample(c: Codec, hash: Bytes -> string, j: Journal, events: seq<Event>, a: Act)
    requires Opened(c, hash, j, events) && TextsValid(a) && a.outcome.Durable?
    requires |j.file| + |Line(c, NextEvent(c, hash, j, a))| > MAX_FILE_BYTES
    ensures Do(c, hash, j, a).sequence == j.sequence + 1 && !Accepted(c, hash, Do(c, hash, j, a).file)
  {
  }

  // ----- What the tail hash determines -----

  /** The hashed messages of a journal. */
  ghost function Messages(c: Codec, events: seq<Event>): set<Bytes> {
    set e | e in events :: c.payload(e.payload)
  }

  ghost predicate MessagesCollide(c: Codec, hash: Bytes -> string, a: seq<Event>, b: seq<Event>) {
    exists x, y :: x in Messages(c, a) && y in Messages(c, b) && Store.Collides(hash, x, y)
  }

  lemma HashDeterminesMessage(c: Codec, hash: Bytes -> string, p: Payload, q: Payload)
    requires EventHash(c, hash, p) == EventHash(c, hash, q)
    ensures hash(c.payload(p)) == hash(c.payload(q))
  {
    assert EventHash(c, hash, p)[7..] == hash(c.payload(p)) && EventHash(c, hash, q)[7..] == hash(c.payload(q));
  }

  /** Different payloads in valid UTF-8 are hashed as different messages. */
  ghost predicate InjectiveOnClean(c: Codec) {
    forall p, q :: CleanPayload(p) && CleanPayload(q) && c.payload(p) == c.payload(q) ==> p == q
  }

  predicate AllClean(events: seq<Event>) {
    forall i :: 0 <= i < |events| ==> CleanPayload(events[i].payload)
  }

  /** What is read from a file is valid UTF-8, whatever the bytes. */
  ghost predicate ReadsClean(c: Codec) {
    forall b :: c.decode(b).Some? ==> CleanPayload(c.decode(b).value.payload)
  }

  lemma {:induction false} VerifiedIsClean(c: Codec, hash: Bytes -> string, file: Bytes, done: seq<Event>)
    requires ReadsClean(c) && AllClean(done) && Chain(c, hash, done) && Verified(c, hash, file, done).Some?
    ensures AllClean(Verified(c, hash, file, done).value) && Chain(c, hash, Verified(c, hash, file, done).value)
    decreases |file|
  {
    hide Follows, CleanPayload, Chain;
    if file != [] {
      var i := LineEnd(file);
      var e := c.decode(file[..i]).value;
      ChainExtends(c, hash, done, e);
      VerifiedIsClean(c, hash, file[i + 1..], done + [e]);
    }
  }

  /** Two accepted files with the same last hash hold the same events, unless two of their messages collide. */
  lemma TailDeterminesEvents(c: Codec, hash: Bytes -> string, f: Bytes, g: Bytes)
    requires ReadsClean(c) && InjectiveOnClean(c)
    requires Verified(c, hash, f, []).Some? && Verified(c, hash, g, []).Some?
    requires var a, b := Verified(c, hash, f, []).value, Verified(c, hash, g, []).value;
             a != [] && b != [] && LastHash(a) == LastHash(b)
    ensures var a, b := Verified(c, hash, f, []).value, Verified(c, hash, g, []).value;
            a == b || MessagesCollide(c, hash, a, b)
  {
    hide Verified, ReadsClean, InjectiveOnClean, MessagesCollide;
    VerifiedIsClean(c, hash, f, []);
    VerifiedIsClean(c, hash, g, []);
    TailDeterminesJournal(c, hash, Verified(c, hash, f, []).value, Verified(c, hash, g, []).value);
  }

  /** Equal hashes of two correct events mean the same event, unless their messages collide. */
  lemma SameEventOrCollision(c: Codec, hash: Bytes -> string, done: seq<Event>, e: Event, past: seq<Event>, f: Event)
    requires InjectiveOnClean(c) && CleanPayload(e.payload) && CleanPayload(f.payload)
    requires Follows(c, hash, done, e) && Follows(c, hash, past, f) && e.hash == f.hash
    ensures Store.Collides(hash, c.payload(e.payload), c.payload(f.payload))
            || (e == f && |done| == |past| && LastHash(done) == LastHash(past))
  {
    hide ValidText, ValidUtf8, EventHash;
    HashDeterminesMessage(c, hash, e.payload, f.payload);
  }

  lemma CollisionLifts(c: Codec, hash: Bytes -> string, a: seq<Event>, b: seq<Event>, m: nat, n: nat)
    requires m <= |a| && n <= |b| && MessagesCollide(c, hash, a[..m], b[..n])
    ensures MessagesCollide(c, hash, a, b)
  {
    assert Messages(c, a[..m]) <= Messages(c, a) && Messages(c, b[..n]) <= Messages(c, b);
  }

  lemma CollisionAt(c: Codec, hash: Bytes -> string, a: seq<Event>, b: seq<Event>, m: nat, n: nat)
    requires m < |a| && n < |b| && Store.Collides(hash, c.payload(a[m].payload), c.payload(b[n].payload))
    ensures MessagesCollide(c, hash, a, b)
  {
    assert a[m] in a && b[n] in b;
  }

  lemma ChainPrefix(c: Codec, hash: Bytes -> string, events: seq<Event>, k: nat)
    requires Chain(c, hash, events) && k <= |events|
    ensures Chain(c, hash, events[..k])
  {
    hide Follows;
    var cut := events[..k];
    forall i | 0 <= i < k ensures Follows(c, hash, cut[..i], cut[i]) {
      assert cut[..i] == events[..i] && cut[i] == events[i];
    }
  }

  lemma ChainLast(c: Codec, hash: Bytes -> string, events: seq<Event>)
    requires Chain(c, hash, events) && events != []
    ensures Follows(c, hash, events[..|events| - 1], events[|events| - 1])
  {
    hide Follows;
  }

  /** The last event's hash determines the whole journal, unless two of its messages collide. */
  lemma {:induction false} TailDeterminesJournal(c: Codec, hash: Bytes -> string, a: seq<Event>, b: seq<Event>)
    requires InjectiveOnClean(c) && AllClean(a) && AllClean(b)
    requires Chain(c, hash, a) && Chain(c, hash, b) && a != [] && b != []
    requires LastHash(a) == LastHash(b)
    ensures a == b || MessagesCollide(c, hash, a, b)
    decreases |a|
  {
    hide Follows, Chain, MessagesCollide, InjectiveOnClean, CleanPayload;
    var m, n := |a| - 1, |b| - 1;
    ChainLast(c, hash, a);
    ChainLast(c, hash, b);
    SameEventOrCollision(c, hash, a[..m], a[m], b[..n], b[n]);
    if Store.Collides(hash, c.payload(a[m].payload), c.payload(b[n].payload)) {
      CollisionAt(c, hash, a, b, m, n);
    } else {
      assert a == a[..m] + [a[m]] && b == b[..n] + [b[n]];
      if m > 0 {
        ChainPrefix(c, hash, a, m);
        ChainPrefix(c, hash, b, n);
        TailDeterminesJournal(c, hash, a[..m], b[..n]);
        if a[..m] != b[..n] {
          CollisionLifts(c, hash, a, b, m, n);
        }
      }
    }
  }

  /** Verification of a file that starts with a full line: check the line, go on with the rest. */
  lemma VerifiedLine(c: Codec, hash: Bytes -> string, line: Bytes, rest: Bytes, done: seq<Event>)
    requires NEWLINE !in line
    ensures var d := c.decode(line);
            Verified(c, hash, line + [NEWLINE] + rest, done) ==
            if |line| < MAX_LINE_BYTES && d.Some? && Follows(c, hash, done, d.value) then Verified(c, hash, rest, done + [d.value])
            else None
  {
    hide Follows;
    var file := line + [NEWLINE] + rest;
    LineEndAt(line, rest);
    assert file[..|line|] == line && file[|line| + 1..] == rest;
  }

  lemma {:induction false} PrefixVerifies(c: Codec, hash: Bytes -> string, a: Bytes, b: Bytes, done: seq<Event>)
    requires Verified(c, hash, a + b, done).Some?
    requires a == [] || a[|a| - 1] == NEWLINE
    ensures Verified(c, hash, a, done).Some?
    decreases |a|
  {
    if a != [] {
      hide Follows, Verified, LineEnd;
      var i := LineEnd(a);
      EndsALine(a);
      var line, rest := a[..i], a[i + 1..];
      FirstLine(a, line, rest, b);
      VerifiedLine(c, hash, line, rest, done);
      VerifiedLine(c, hash, line, rest + b, done);
      PrefixVerifies(c, hash, rest, b, done + [c.decode(line).value]);
    }
  }

  lemma FirstLine(a: Bytes, line: Bytes, rest: Bytes, b: Bytes)
    requires |line| < |a| && a[|line|] == NEWLINE && line == a[..|line|] && rest == a[|line| + 1..]
    ensures a == line + [NEWLINE] + rest && a + b == line + [NEWLINE] + (rest + b)
    ensures rest != [] ==> rest[|rest| - 1] == a[|a| - 1]
  {
  }

  /** Every line prefix of an accepted file is accepted, so cutting lines off the end goes unnoticed. */
  lemma LinePrefixAccepted(c: Codec, hash: Bytes -> string, a: Bytes, b: Bytes, done: seq<Event>)
    requires Verified(c, hash, a + b, done).Some?
    requires a == [] || a[|a| - 1] == NEWLINE
    ensures Verified(c, hash, a, done).Some?
    ensures Verified(c, hash, a, done).value <= Verified(c, hash, a + b, done).value
  {
    hide Verified;
    PrefixVerifies(c, hash, a, b, done);
    VerifiedSplit(c, hash, a, b, done);
  }

  lemma FirstLineOfBoth(line: Bytes, rest: Bytes, b: Bytes)
    ensures line + [NEWLINE] + rest + b == line + [NEWLINE] + (rest + b)
    ensures rest != [] ==> (line + [NEWLINE] + rest)[|line| + |rest|] == rest[|rest| - 1]
  {
  }

  lemma VerifiedNothing(c: Codec, hash: Bytes -> string, done: seq<Event>)
    ensures Verified(c, hash, [], done) == Some(done)
  {
  }

  lemma {:induction false} EndsALine(a: Bytes)
    requires a != [] && a[|a| - 1] == NEWLINE
    ensures LineEnd(a) < |a|
  {
    if a[0] != NEWLINE {
      EndsALine(a[1..]);
    }
  }

  /** A remembered tail shows the cut: a proper prefix has another tail hash, unless messages collide. */
  lemma TruncationChangesTail(c: Codec, hash: Bytes -> string, events: seq<Event>, k: nat)
    requires InjectiveOnClean(c) && AllClean(events)
    requires Chain(c, hash, events) && 0 < k < |events|
    ensures Chain(c, hash, events[..k])
    ensures LastHash(events[..k]) != LastHash(events) || MessagesCollide(c, hash, events[..k], events)
  {
    ChainPrefix(c, hash, events, k);
    if LastHash(events[..k]) == LastHash(events) {
      TailDeterminesJournal(c, hash, events[..k], events);
    }
  }
}
