/** Runs of the receipt store: index against log, reopening, bounds and the archive. */
module ReceiptRuns {
  import opened Utf8
  import opened Models
  import opened Sums
  import opened TextLines
  import opened Receipts

  // ---------------------------------------------------------------- runs

  /** The states a store goes through, one save leading from each to the next. */
  datatype Run = Run(codec: Codec, limit: int, states: seq<State>, calls: seq<Call>) {
    predicate Shaped() { |states| == |calls| + 1 }

    predicate Saves(k: nat)
      requires Shaped() && k < |calls|
    {
      states[k + 1] == SaveSpec(codec, limit, states[k], calls[k]).0
    }

    ghost predicate Follows() { Shaped() && forall k :: 0 <= k < |calls| ==> Saves(k) }
  }

  /** State in which the line is written, if it is. */
  function Base(limit: int, s: State, c: Call): State { if Rotates(limit, s, c) then Rotated(s, c.archive) else s }

  /** What a save adds to the log. */
  function Added(codec: Codec, limit: int, s: State, c: Call): Bytes {
    if Full(limit, s) && c.fate == RenameFails then []
    else
      match c.fate
      case MarshalFails => []
      case OpenFails => []
      case WriteFails(n) => Taken(LineOf(codec, Named(c)), n)
      case _ => LineOf(codec, Named(c))
  }

  lemma SaveLog(codec: Codec, limit: int, s: State, c: Call)
    ensures var s' := SaveSpec(codec, limit, s, c).0;
            && Content(s'.log) == Content(Base(limit, s, c).log) + Added(codec, limit, s, c)
            && s'.archives == Base(limit, s, c).archives
  {
    var b := Content(Base(limit, s, c).log);
    assert b + [] == b;
  }

  // ---------------------------------------------------------------- failures and bounds

  /** A save that fails leaves the index as it was, except for a completed rotation. */
  lemma FailedSaveKeepsIndex(codec: Codec, limit: int, s: State, c: Call)
    requires SaveSpec(codec, limit, s, c).1 == None
    ensures var s' := SaveSpec(codec, limit, s, c).0;
            if Rotates(limit, s, c) then s'.receipts == map[] && s'.entryCount == 0
            else s'.receipts == s.receipts && s'.entryCount == s.entryCount
  {
  }

  /** A save that succeeds can be looked up, and leaves between one and `limit` entries,
      however many the log held when it was loaded. */
  lemma SuccessfulSave(codec: Codec, limit: int, s: State, c: Call)
    requires SaveSpec(codec, limit, s, c).1.Some? && s.entryCount >= 0
    ensures var (s', saved) := SaveSpec(codec, limit, s, c);
            && saved == Some(Named(c))
            && Named(c).receiptID in s'.receipts && s'.receipts[Named(c).receiptID] == Named(c)
            && (forall id :: id != Named(c).receiptID && !Rotates(limit, s, c) ==>
                  (id in s'.receipts <==> id in s.receipts) && (id in s.receipts ==> s'.receipts[id] == s.receipts[id]))
            && 1 <= s'.entryCount && (limit > 0 ==> s'.entryCount <= limit)
  {
  }

  // ---------------------------------------------------------------- the index against the log

  ghost predicate Agrees(codec: Codec, s: State) {
    var x := Replay(codec, Lines(NEWLINE, Content(s.log)));
    x.receipts == s.receipts && x.entryCount == s.entryCount
  }

  ghost predicate Tidy(s: State) { Terminated(NEWLINE, Content(s.log)) }

  predicate Whole(c: Call) { !c.fate.WriteFails? }

  /** Lines that are in the log but not in the index: syncs that failed since the last rotation. */
  function Unsynced(r: Run, k: nat): nat
    requires r.Shaped() && k <= |r.calls|
  {
    if k == 0 then 0 else NextUnsynced(r.limit, r.states[k - 1], r.calls[k - 1], Unsynced(r, k - 1))
  }

  /** One more whole line in a tidy log is one more step of the replay. */
  lemma ReplayAppend(codec: Codec, c: Bytes, x: Receipt)
    requires Lawful(codec) && Terminated(NEWLINE, c)
    ensures Terminated(NEWLINE, c + LineOf(codec, x))
    ensures Lines(NEWLINE, c + LineOf(codec, x)) == Lines(NEWLINE, c) + [codec.encode(x)]
    ensures Replay(codec, Lines(NEWLINE, c + LineOf(codec, x))) == Enter(Replay(codec, Lines(NEWLINE, c)), Record(x))
  {
    assert codec.parse(codec.encode(x)) == Record(x) && NEWLINE !in codec.encode(x);
    OneLine(NEWLINE, codec.encode(x));
    LinesAppend(NEWLINE, c, LineOf(codec, x));
    var w := Lines(NEWLINE, c) + [codec.encode(x)];
    assert w[..|w| - 1] == Lines(NEWLINE, c);
  }

  /** How far the index may trail the log. */
  ghost predicate Trails(codec: Codec, s: State, missing: nat) {
    && Tidy(s)
    && Replay(codec, Lines(NEWLINE, Content(s.log))).entryCount == s.entryCount + missing
    && (missing == 0 ==> Agrees(codec, s))
  }

  /** The three ways a save of whole lines can end, from the state it appends to. */
  lemma SaveCases(codec: Codec, limit: int, s: State, c: Call)
    requires Whole(c)
    ensures var b, s' := Base(limit, s, c), SaveSpec(codec, limit, s, c).0;
            var r := Named(c);
            if Added(codec, limit, s, c) == [] then
              c.fate != SyncFails && Content(s'.log) == Content(b.log)
              && s'.receipts == b.receipts && s'.entryCount == b.entryCount
            else
              && Content(s'.log) == Content(b.log) + LineOf(codec, r)
              && (if c.fate == SyncFails then s'.receipts == b.receipts && s'.entryCount == b.entryCount
                  else s'.receipts == b.receipts[r.receiptID := r] && s'.entryCount == b.entryCount + 1)
  {
  }

  function NextUnsynced(limit: int, s: State, c: Call, missing: nat): nat {
    (if Rotates(limit, s, c) then 0 else missing) + (if c.fate == SyncFails then 1 else 0)
  }

  lemma TrailsAppend(codec: Codec, b: State, s': State, r: Receipt, missing: nat, synced: bool)
    requires Lawful(codec) && Trails(codec, b, missing)
    requires Content(s'.log) == Content(b.log) + LineOf(codec, r)
    requires if synced then s'.receipts == b.receipts[r.receiptID := r] && s'.entryCount == b.entryCount + 1
             else s'.receipts == b.receipts && s'.entryCount == b.entryCount
    ensures Trails(codec, s', if synced then missing else missing + 1)
  {
    ReplayAppend(codec, Content(b.log), r);
  }

  lemma TrailsStep(codec: Codec, limit: int, s: State, c: Call, missing: nat)
    requires Lawful(codec) && Whole(c) && Trails(codec, s, missing)
    ensures Trails(codec, SaveSpec(codec, limit, s, c).0, NextUnsynced(limit, s, c, missing))
  {
    var b, s' := Base(limit, s, c), SaveSpec(codec, limit, s, c).0;
    var base := if Rotates(limit, s, c) then 0 else missing;
    assert Trails(codec, b, base);
    SaveCases(codec, limit, s, c);
    if Added(codec, limit, s, c) != [] {
      TrailsAppend(codec, b, s', Named(c), base, c.fate != SyncFails);
    }
  }

  lemma {:induction false} TrailsHolds(r: Run, k: nat)
    requires r.Follows() && Lawful(r.codec) && Agrees(r.codec, r.states[0]) && Tidy(r.states[0]) && k <= |r.calls|
    requires forall i :: 0 <= i < k ==> Whole(r.calls[i])
    ensures Trails(r.codec, r.states[k], Unsynced(r, k))
  {
    if k > 0 {
      assert r.Saves(k - 1);
      TrailsHolds(r, k - 1);
      TrailsStep(r.codec, r.limit, r.states[k - 1], r.calls[k - 1], Unsynced(r, k - 1));
    }
  }

  /** In every run of whole writes the index equals the replay of the log exactly when no sync
      failed since the last rotation; otherwise it lacks one entry for each that did. */
  lemma IndexIsReplay(r: Run, k: nat)
    requires r.Follows() && Lawful(r.codec) && Agrees(r.codec, r.states[0]) && Tidy(r.states[0]) && k <= |r.calls|
    requires forall i :: 0 <= i < k ==> Whole(r.calls[i])
    ensures Agrees(r.codec, r.states[k]) <==> Unsynced(r, k) == 0
    ensures Replay(r.codec, Lines(NEWLINE, Content(r.states[k].log))).entryCount
            == r.states[k].entryCount + Unsynced(r, k)
    ensures Tidy(r.states[k])
  {
    TrailsHolds(r, k);
  }

  /** The index of a store just opened is the replay of its log. */
  lemma OpenedAgrees(codec: Codec, content: Bytes, archives: map<string, Bytes>)
    requires Open(codec, content).Some?
    ensures var x := Open(codec, content).value;
            var s := State(x.receipts, x.entryCount, Some(content), archives);
            Agrees(codec, s) && Restores(codec, s)
  {
  }

  // ---------------------------------------------------------------- reopening

  function NextTooLong(codec: Codec, limit: int, s: State, c: Call, tooLong: nat): nat {
    (if Rotates(limit, s, c) then 0 else tooLong)
    + (if Added(codec, limit, s, c) != [] && |codec.encode(Named(c))| >= MAX_LINE then 1 else 0)
  }

  /** Lines too long for the reader written since the last rotation. */
  function TooLong(r: Run, k: nat): nat
    requires r.Shaped() && k <= |r.calls|
  {
    if k == 0 then 0 else NextTooLong(r.codec, r.limit, r.states[k - 1], r.calls[k - 1], TooLong(r, k - 1))
  }

  ghost predicate Readable(codec: Codec, s: State, tooLong: nat) {
    && Tidy(s)
    && (AllShort(Lines(NEWLINE, Content(s.log))) <==> tooLong == 0)
    && (SomeCorrupt(codec, Lines(NEWLINE, Content(s.log))) ==>
       Replay(codec, Lines(NEWLINE, Content(s.log))).receipts != map[])
  }

  lemma ShortSnoc(lines: seq<Bytes>, line: Bytes)
    ensures AllShort(lines + [line]) <==> AllShort(lines) && |line| < MAX_LINE
  {
    var w := lines + [line];
    assert w[|lines|] == line;
    forall k | 0 <= k < |lines| ensures w[k] == lines[k] {
    }
  }

  lemma ReadableAppend(codec: Codec, b: State, s': State, x: Receipt, tooLong: nat)
    requires Lawful(codec) && Readable(codec, b, tooLong) && Content(s'.log) == Content(b.log) + LineOf(codec, x)
    ensures Readable(codec, s', tooLong + if |codec.encode(x)| >= MAX_LINE then 1 else 0)
  {
    var c := Content(b.log);
    ReplayAppend(codec, c, x);
    ShortSnoc(Lines(NEWLINE, c), codec.encode(x));
    assert x.receiptID in Replay(codec, Lines(NEWLINE, c + LineOf(codec, x))).receipts;
  }

  lemma ReadableStep(codec: Codec, limit: int, s: State, c: Call, tooLong: nat)
    requires Lawful(codec) && Whole(c) && Readable(codec, s, tooLong)
    ensures Readable(codec, SaveSpec(codec, limit, s, c).0, NextTooLong(codec, limit, s, c, tooLong))
  {
    var b, s' := Base(limit, s, c), SaveSpec(codec, limit, s, c).0;
    var base := if Rotates(limit, s, c) then 0 else tooLong;
    assert Readable(codec, b, base);
    SaveCases(codec, limit, s, c);
    if Added(codec, limit, s, c) != [] {
      ReadableAppend(codec, b, s', Named(c), base);
    }
  }

  lemma {:induction false} ReadableHolds(r: Run, k: nat)
    requires r.Follows() && Lawful(r.codec) && Readable(r.codec, r.states[0], 0) && k <= |r.calls|
    requires forall i :: 0 <= i < k ==> Whole(r.calls[i])
    ensures Readable(r.codec, r.states[k], TooLong(r, k))
  {
    if k > 0 {
      assert r.Saves(k - 1);
      ReadableHolds(r, k - 1);
      ReadableStep(r.codec, r.limit, r.states[k - 1], r.calls[k - 1], TooLong(r, k - 1));
    }
  }

  /** Opening the log gives back the index as it is in memory. */
  ghost predicate Restores(codec: Codec, s: State) {
    var x := Open(codec, Content(s.log));
    x.Some? && x.value.receipts == s.receipts && x.value.entryCount == s.entryCount
  }

  /** A store opened on a tidy log and run with whole writes can be closed and opened again,
      with the same receipts and the same count, exactly when no sync failed and no line
      beyond the reader's limit was written since the last rotation. */
  lemma ReopenRestores(r: Run, k: nat)
    requires r.Follows() && Lawful(r.codec) && Tidy(r.states[0]) && Restores(r.codec, r.states[0]) && k <= |r.calls|
    requires forall i :: 0 <= i < k ==> Whole(r.calls[i])
    ensures Restores(r.codec, r.states[k]) <==> Unsynced(r, k) == 0 && TooLong(r, k) == 0
  {
    IndexIsReplay(r, k);
    ReadableHolds(r, k);
  }

  // ---------------------------------------------------------------- what the hypotheses rule out

  /** An unterminated log, left by a torn write or found at start-up, swallows the next receipt:
      the two run together into one line, and unless that happens to decode the receipt just
      saved is in the index but not in the log. */
  lemma UnterminatedSwallows(codec: Codec, s: State, torn: Bytes, x: Receipt)
    requires Lawful(codec) && torn != [] && NEWLINE !in torn && s.log == Some(torn)
    requires !codec.parse(torn + codec.encode(x)).Record? && x.receiptID != ""
    ensures var s' := SaveSpec(codec, 0, s, Call(x, "", "", Fine)).0;
            && x.receiptID in s'.receipts
            && Replay(codec, Lines(NEWLINE, Content(s'.log))) == EMPTY
  {
    assert NEWLINE !in codec.encode(x);
    var line := torn + codec.encode(x);
    OneLine(NEWLINE, line);
    assert torn + LineOf(codec, x) == line + [NEWLINE];
    assert [line][..0] == [];
  }

  // ---------------------------------------------------------------- logs in any condition

  /** The replay up to the last newline. */
  function Settled(codec: Codec, log: Bytes): Index { Replay(codec, Lines(NEWLINE, log[..LastBreak(NEWLINE, log)])) }

  function LastLine(codec: Codec, t: Bytes): Line { if t == [] then Blank else codec.parse(t) }

  /** What is added without its newline. */
  function Body(a: Bytes): Bytes { if a != [] && a[|a| - 1] == NEWLINE then a[..|a| - 1] else a }

  lemma ReplayLog(codec: Codec, log: Bytes)
    ensures Replay(codec, Lines(NEWLINE, log)) == Enter(Settled(codec, log), LastLine(codec, Fragment(NEWLINE, log)))
  {
    var n := LastBreak(NEWLINE, log);
    assert log == log[..n] + log[n..];
    LinesFragment(NEWLINE, log[..n], log[n..]);
    var whole := Lines(NEWLINE, log[..n]) + [log[n..]];
    assert whole[..|whole| - 1] == Lines(NEWLINE, log[..n]);
  }

  /** What is added joins the unterminated piece into one line. */
  lemma ReplayAdded(codec: Codec, log: Bytes, a: Bytes)
    requires a != [] && NEWLINE !in Body(a)
    ensures Replay(codec, Lines(NEWLINE, log + a))
         == Enter(Settled(codec, log), codec.parse(Fragment(NEWLINE, log) + Body(a)))
  {
    var n := LastBreak(NEWLINE, log);
    var c, line := log[..n], Fragment(NEWLINE, log) + Body(a);
    if a[|a| - 1] == NEWLINE {
      assert log + a == c + (line + [NEWLINE]);
      OneLine(NEWLINE, line);
      LinesAppend(NEWLINE, c, line + [NEWLINE]);
    } else {
      assert log + a == c + line;
      LinesFragment(NEWLINE, c, line);
    }
    var whole := Lines(NEWLINE, c) + [line];
    assert whole[..|whole| - 1] == Lines(NEWLINE, c);
  }

  lemma AddedBody(codec: Codec, limit: int, s: State, c: Call)
    requires Lawful(codec)
    ensures NEWLINE !in Body(Added(codec, limit, s, c))
    ensures SaveSpec(codec, limit, s, c).1.Some? ==>
              Added(codec, limit, s, c) != [] && Body(Added(codec, limit, s, c)) == codec.encode(Named(c))
  {
    var e := codec.encode(Named(c));
    assert NEWLINE !in e;
    assert (e + [NEWLINE])[..|e|] == e;
    var a := Added(codec, limit, s, c);
    assert a == [] || a == e + [NEWLINE] || (|a| <= |e| && a == (e + [NEWLINE])[..|a|]);
    if |a| <= |e| && a == (e + [NEWLINE])[..|a|] {
      assert a == e[..|a|];
    }
  }

  /** Whether a save keeps the index in step with the log, read off the unterminated piece the log
      ends with and what the save adds. If the receipt is indexed, there is no such piece, or it
      does not decode by itself and makes no difference to the receipt it runs into. If not, the
      piece decodes to the same as before, or to nothing before and after. */
  predicate Harmless(codec: Codec, limit: int, s: State, c: Call) {
    var log, a := Content(Base(limit, s, c).log), Added(codec, limit, s, c);
    var t, settled := Fragment(NEWLINE, log), Settled(codec, log);
    var was, now := LastLine(codec, t), codec.parse(t + Body(a));
    if a == [] then true
    else if SaveSpec(codec, limit, s, c).1.Some? then
      t == [] || (!was.Record? && now.Record? && Enter(settled, now) == Enter(settled, Record(Named(c))))
    else (was.Record? <==> now.Record?) && (now.Record? ==> Enter(settled, now) == Enter(settled, was))
  }

  predicate Shows(s: State, x: Index) { s.receipts == x.receipts && s.entryCount == x.entryCount }

  lemma SavedIff(settled: Index, was: Line, now: Line, x: Receipt)
    ensures Enter(settled, now) == Enter(Enter(settled, was), Record(x))
       <==> !was.Record? && now.Record? && Enter(settled, now) == Enter(settled, Record(x))
  {
  }

  lemma FailedIff(settled: Index, was: Line, now: Line)
    ensures Enter(settled, now) == Enter(settled, was)
       <==> (was.Record? <==> now.Record?) && (now.Record? ==> Enter(settled, now) == Enter(settled, was))
  {
  }

  /** The index after a save that adds to the log. */
  lemma IndexAfterAdding(codec: Codec, limit: int, s: State, c: Call, x: Index)
    requires Shows(Base(limit, s, c), x) && Added(codec, limit, s, c) != []
    ensures var (s', saved) := SaveSpec(codec, limit, s, c);
            Shows(s', if saved.Some? then Enter(x, Record(Named(c))) else x)
  {
    SavedIndex(codec, limit, s, c);
  }

  lemma BaseShows(codec: Codec, limit: int, s: State, c: Call)
    requires Agrees(codec, s)
    ensures var log := Content(Base(limit, s, c).log);
            Shows(Base(limit, s, c), Enter(Settled(codec, log), LastLine(codec, Fragment(NEWLINE, log))))
  {
    ReplayLog(codec, Content(Base(limit, s, c).log));
  }

  /** A save after which the log is longer. */
  lemma AgreesAfterAdding(codec: Codec, limit: int, s: State, c: Call)
    requires Lawful(codec) && Agrees(codec, s) && Added(codec, limit, s, c) != []
    ensures Agrees(codec, SaveSpec(codec, limit, s, c).0) <==> Harmless(codec, limit, s, c)
  {
    var log, a := Content(Base(limit, s, c).log), Added(codec, limit, s, c);
    var t, settled := Fragment(NEWLINE, log), Settled(codec, log);
    var was, now := LastLine(codec, t), codec.parse(t + Body(a));
    BaseShows(codec, limit, s, c);
    IndexAfterAdding(codec, limit, s, c, Enter(settled, was));
    SaveLog(codec, limit, s, c);
    AddedBody(codec, limit, s, c);
    ReplayAdded(codec, log, a);
    SavedIff(settled, was, now, Named(c));
    FailedIff(settled, was, now);
    if t == [] {
      assert t + Body(a) == Body(a);
      assert codec.parse(codec.encode(Named(c))) == Record(Named(c));
    }
  }

  lemma AgreesWithoutAdding(codec: Codec, limit: int, s: State, c: Call)
    requires Lawful(codec) && Agrees(codec, s) && Added(codec, limit, s, c) == []
    ensures Agrees(codec, SaveSpec(codec, limit, s, c).0)
  {
    AddedBody(codec, limit, s, c);
    SavedIndex(codec, limit, s, c);
    SaveLog(codec, limit, s, c);
    var log := Content(Base(limit, s, c).log);
    assert log + [] == log;
  }

  /** Whatever the log looks like and whatever comes of the save, the index agrees with
      the log afterwards exactly when the save is harmless. */
  lemma AgreesAfterIff(codec: Codec, limit: int, s: State, c: Call)
    requires Lawful(codec) && Agrees(codec, s)
    ensures Agrees(codec, SaveSpec(codec, limit, s, c).0) <==> Harmless(codec, limit, s, c)
  {
    if Added(codec, limit, s, c) == [] {
      AgreesWithoutAdding(codec, limit, s, c);
    } else {
      AgreesAfterAdding(codec, limit, s, c);
    }
  }

  predicate HarmlessAt(r: Run, k: nat)
    requires r.Shaped() && k < |r.calls|
  {
    Harmless(r.codec, r.limit, r.states[k], r.calls[k])
  }

  ghost predicate AgreesAt(r: Run, k: nat)
    requires r.Shaped() && k <= |r.calls|
  {
    Agrees(r.codec, r.states[k])
  }

  lemma AgreesStep(r: Run, k: nat)
    requires r.Follows() && Lawful(r.codec) && k < |r.calls| && AgreesAt(r, k)
    ensures AgreesAt(r, k + 1) <==> HarmlessAt(r, k)
  {
    assert r.Saves(k);
    AgreesAfterIff(r.codec, r.limit, r.states[k], r.calls[k]);
  }

  lemma {:induction false} Stepwise(good: nat -> bool, keeps: nat -> bool, n: nat)
    requires good(0) && forall k: nat :: k < n && good(k) ==> (good(k + 1) <==> keeps(k))
    ensures (forall k: nat :: k <= n ==> good(k)) <==> (forall k: nat :: k < n ==> keeps(k))
  {
    if n > 0 {
      Stepwise(good, keeps, n - 1);
      assert good(n - 1) ==> (good(n) <==> keeps(n - 1));
    }
  }

  /** In every run, torn writes and untidy logs included, the index is the replay of the log
      throughout exactly when every save is harmless. */
  lemma AgreesThroughout(r: Run, n: nat)
    requires r.Follows() && Lawful(r.codec) && n <= |r.calls| && AgreesAt(r, 0)
    ensures (forall k: nat :: k <= n ==> AgreesAt(r, k)) <==> (forall k: nat :: k < n ==> HarmlessAt(r, k))
  {
    ghost var good := (k: nat) => k <= n && AgreesAt(r, k);
    var keeps := (k: nat) => k < n && HarmlessAt(r, k);
    forall k: nat | k < n && good(k) ensures good(k + 1) <==> keeps(k) {
      AgreesStep(r, k);
    }
    Stepwise(good, keeps, n);
    assert forall k: nat :: k <= n ==> (good(k) <==> AgreesAt(r, k));
    assert forall k: nat :: k < n ==> (keeps(k) <==> HarmlessAt(r, k));
  }

  /** A receipt saved after an unterminated piece is in the log as it is in the index exactly when
      the piece is empty, or does not decode by itself and still lets the receipt decode. */
  lemma SavedAfterFragment(codec: Codec, limit: int, s: State, c: Call, whole: Bytes, t: Bytes)
    requires Lawful(codec) && Agrees(codec, s) && c.fate == Fine && !Rotates(limit, s, c)
    requires Terminated(NEWLINE, whole) && NEWLINE !in t && Content(s.log) == whole + t
    ensures var before, joined := Replay(codec, Lines(NEWLINE, whole)), codec.parse(t + codec.encode(Named(c)));
            Agrees(codec, SaveSpec(codec, limit, s, c).0) <==>
              || t == []
              || (!codec.parse(t).Record? && joined.Record? && Enter(before, joined) == Enter(before, Record(Named(c))))
  {
    LastBreakOf(NEWLINE, whole, t);
    AddedBody(codec, limit, s, c);
    AgreesAfterIff(codec, limit, s, c);
    assert (whole + t)[..|whole|] == whole && (whole + t)[|whole|..] == t;
  }

  /** For a store in any state: opening its log gives back its index exactly when the two agree, no line
      is beyond the reader's limit, and there is a receipt if any line is corrupt. */
  lemma RestoresIff(codec: Codec, s: State)
    ensures Restores(codec, s)
       <==> && Agrees(codec, s) && AllShort(Lines(NEWLINE, Content(s.log)))
            && (SomeCorrupt(codec, Lines(NEWLINE, Content(s.log))) ==> s.receipts != map[])
  {
  }

  /** A torn write to an empty log leaves index and log in agreement, and yet the store cannot be
      opened again. */
  lemma TornFirstWrite(codec: Codec, limit: int, c: Call, archives: map<string, Bytes>)
    requires Lawful(codec) && c.fate.WriteFails? && 0 < c.fate.written <= |codec.encode(Named(c))|
    requires codec.parse(codec.encode(Named(c))[..c.fate.written]) == Corrupt
    ensures var s := SaveSpec(codec, limit, State(map[], 0, Some([]), archives), c).0;
            Agrees(codec, s) && Open(codec, Content(s.log)) == None
  {
    var torn := codec.encode(Named(c))[..c.fate.written];
    assert NEWLINE !in codec.encode(Named(c));
    assert Taken(LineOf(codec, Named(c)), c.fate.written) == torn;
    var empty: Bytes := [];
    assert empty + torn == torn;
    LinesFragment(NEWLINE, empty, torn);
    var lines := Lines(NEWLINE, torn);
    assert lines == [torn] && lines[..0] == [];
    assert codec.parse(lines[0]) == Corrupt;
  }

  // ---------------------------------------------------------------- recorded receipts

  /** Receipts recorded since the log was last archived, on top of those found at the start. */
  function Recorded(r: Run, found: seq<Receipt>, k: nat): seq<Receipt>
    requires r.Shaped() && k <= |r.calls|
  {
    if k == 0 then found
    else RecordedAfter(r.codec, r.limit, r.states[k - 1], r.calls[k - 1], Recorded(r, found, k - 1))
  }

  /** In every run, whatever fails, the index holds the latest of the receipts recorded under each id;
      it has no more receipts than entries, and as many exactly when their ids are distinct. */
  lemma {:induction false} IndexIsRecorded(r: Run, found: seq<Receipt>, k: nat)
    requires r.Follows() && k <= |r.calls| && Indexes(r.states[0], found)
    ensures var s, recorded := r.states[k], Recorded(r, found, k);
            && (forall id :: id in s.receipts ==> Latest(recorded, id, s.receipts[id]))
            && (forall x :: x in recorded ==> x.receiptID in s.receipts)
            && |s.receipts| <= s.entryCount == |recorded|
            && (|s.receipts| == s.entryCount <==> DistinctIds(recorded))
    ensures Indexes(r.states[k], Recorded(r, found, k))
  {
    if k > 0 {
      IndexIsRecorded(r, found, k - 1);
      assert r.Saves(k - 1);
      IndexesAfter(r.codec, r.limit, r.states[k - 1], r.calls[k - 1], Recorded(r, found, k - 1));
    }
    IndexedFacts(r.states[k], Recorded(r, found, k));
  }

  lemma IndexedFacts(s: State, recorded: seq<Receipt>)
    requires Indexes(s, recorded)
    ensures forall id :: id in s.receipts ==> Latest(recorded, id, s.receipts[id])
    ensures forall x :: x in recorded ==> x.receiptID in s.receipts
    ensures |s.receipts| <= s.entryCount == |recorded|
    ensures |s.receipts| == s.entryCount <==> DistinctIds(recorded)
  {
    BuiltCount(recorded);
    forall id | id in s.receipts ensures Latest(recorded, id, s.receipts[id]) {
      BuiltIsLatest(recorded, id);
    }
    forall x | x in recorded ensures x.receiptID in s.receipts {
      BuiltIsLatest(recorded, x.receiptID);
    }
  }

  // ---------------------------------------------------------------- the archive

  function Written(r: Run, k: nat): Bytes
    requires r.Shaped() && k <= |r.calls|
  {
    if k == 0 then [] else Written(r, k - 1) + Added(r.codec, r.limit, r.states[k - 1], r.calls[k - 1])
  }

  /** Names given to archived logs, in order. */
  function Names(r: Run, k: nat): seq<string>
    requires r.Shaped() && k <= |r.calls|
  {
    if k == 0 then [] else Names(r, k - 1) + NewNames(r.limit, r.states[k - 1], r.calls[k - 1])
  }

  function Concat(names: seq<string>, archives: map<string, Bytes>): Bytes {
    if names == [] then []
    else
      var n := names[|names| - 1];
      Concat(names[..|names| - 1], archives) + if n in archives then archives[n] else []
  }

  ghost predicate Distinct(names: seq<string>) {
    forall i, j :: 0 <= i < j < |names| ==> names[i] != names[j]
  }

  lemma {:induction false} ConcatIgnores(names: seq<string>, archives: map<string, Bytes>, n: string, v: Bytes)
    requires n !in names
    ensures Concat(names, archives[n := v]) == Concat(names, archives)
  {
    if names != [] {
      ConcatIgnores(names[..|names| - 1], archives, n, v);
    }
  }

  /** The history held by the listed archives and the log. */
  function History(names: seq<string>, s: State): Bytes { Concat(names, s.archives) + Content(s.log) }

  function NewNames(limit: int, s: State, c: Call): seq<string> {
    if Rotates(limit, s, c) && s.log.Some? then [c.archive] else []
  }

  lemma HistoryRotated(names: seq<string>, limit: int, s: State, c: Call)
    requires NewNames(limit, s, c) != [] ==> c.archive !in names
    ensures History(names + NewNames(limit, s, c), Base(limit, s, c)) == History(names, s)
  {
    if NewNames(limit, s, c) != [] {
      assert (names + [c.archive])[..|names|] == names;
      ConcatIgnores(names, s.archives, c.archive, s.log.value);
    } else {
      assert names + [] == names;
    }
  }

  lemma HistorySaved(names: seq<string>, codec: Codec, limit: int, s: State, c: Call)
    requires NewNames(limit, s, c) != [] ==> c.archive !in names
    ensures History(names + NewNames(limit, s, c), SaveSpec(codec, limit, s, c).0)
         == History(names, s) + Added(codec, limit, s, c)
  {
    HistoryRotated(names, limit, s, c);
    SaveLog(codec, limit, s, c);
    var all, b := names + NewNames(limit, s, c), Base(limit, s, c);
    assert Concat(all, b.archives) + (Content(b.log) + Added(codec, limit, s, c))
        == (Concat(all, b.archives) + Content(b.log)) + Added(codec, limit, s, c);
  }

  lemma Regroup(a: Bytes, b: Bytes, c: Bytes)
    ensures (a + b) + c == a + (b + c)
  {
  }

  lemma HistoryStart(s: State)
    ensures History([], s) == Content(s.log) + []
  {
    var found := Content(s.log);
    assert [] + found == found == found + [];
  }

  lemma NamesStep(r: Run, k: nat)
    requires r.Shaped() && k < |r.calls| && Distinct(Names(r, k + 1))
    ensures Distinct(Names(r, k))
    ensures NewNames(r.limit, r.states[k], r.calls[k]) != [] ==> r.calls[k].archive !in Names(r, k)
  {
    DistinctPrefix(Names(r, k), NewNames(r.limit, r.states[k], r.calls[k]));
  }

  /** With distinct archive names nothing is lost or reordered: the archives in order of
      rotation, followed by the active log, are the whole history. */
  lemma {:induction false} ArchivesAreHistory(r: Run, k: nat)
    requires r.Follows() && k <= |r.calls| && Distinct(Names(r, k))
    ensures History(Names(r, k), r.states[k]) == Content(r.states[0].log) + Written(r, k)
  {
    if k == 0 {
      HistoryStart(r.states[0]);
    } else {
      NamesStep(r, k - 1);
      ArchivesAreHistory(r, k - 1);
      HistoryStep(r, k - 1);
      Regroup(Content(r.states[0].log), Written(r, k - 1), Added(r.codec, r.limit, r.states[k - 1], r.calls[k - 1]));
    }
  }

  lemma HistoryStep(r: Run, k: nat)
    requires r.Follows() && k < |r.calls|
    requires NewNames(r.limit, r.states[k], r.calls[k]) != [] ==> r.calls[k].archive !in Names(r, k)
    ensures History(Names(r, k + 1), r.states[k + 1])
         == History(Names(r, k), r.states[k]) + Added(r.codec, r.limit, r.states[k], r.calls[k])
  {
    assert r.Saves(k);
    HistorySaved(Names(r, k), r.codec, r.limit, r.states[k], r.calls[k]);
  }

  lemma DistinctPrefix(names: seq<string>, more: seq<string>)
    requires Distinct(names + more)
    ensures Distinct(names) && forall n :: n in more ==> n !in names
  {
    var all := names + more;
    forall i, j | 0 <= i < j < |names| ensures names[i] != names[j] {
      assert all[i] == names[i] && all[j] == names[j];
    }
    forall i, j | 0 <= i < |names| && 0 <= j < |more| ensures names[i] != more[j] {
      assert all[i] == names[i] && all[|names| + j] == more[j];
    }
  }

  ghost function Sizes(archives: map<string, Bytes>): map<string, int> {
    map n | n in archives :: |archives[n]|
  }

  ghost function Stored(s: State): int { Sum(Sizes(s.archives)) + |Content(s.log)| }

  /** Bytes of an older archive replaced when the rotation reuses its name. */
  function Replaced(limit: int, s: State, c: Call): nat {
    if NewNames(limit, s, c) != [] && c.archive in s.archives then |s.archives[c.archive]| else 0
  }

  function Overwritten(r: Run, k: nat): nat
    requires r.Shaped() && k <= |r.calls|
  {
    if k == 0 then 0 else Overwritten(r, k - 1) + Replaced(r.limit, r.states[k - 1], r.calls[k - 1])
  }

  lemma StoredAfterRotation(limit: int, s: State, c: Call)
    ensures Stored(Base(limit, s, c)) == Stored(s) - Replaced(limit, s, c)
  {
    if NewNames(limit, s, c) != [] {
      assert Sizes(s.archives[c.archive := s.log.value]) == Sizes(s.archives)[c.archive := |s.log.value|];
      SumUpdate(Sizes(s.archives), c.archive, |s.log.value|);
    }
  }

  lemma StoredAfterSave(codec: Codec, limit: int, s: State, c: Call)
    ensures Stored(SaveSpec(codec, limit, s, c).0) == Stored(s) + |Added(codec, limit, s, c)| - Replaced(limit, s, c)
  {
    SaveLog(codec, limit, s, c);
    StoredAfterRotation(limit, s, c);
  }

  lemma StoredStep(r: Run, k: nat)
    requires r.Follows() && k < |r.calls|
    ensures Stored(r.states[k + 1]) - Stored(r.states[k])
         == |Added(r.codec, r.limit, r.states[k], r.calls[k])| - Replaced(r.limit, r.states[k], r.calls[k])
  {
    assert r.Saves(k);
    StoredAfterSave(r.codec, r.limit, r.states[k], r.calls[k]);
  }

  /** In every run the bytes on disk are the bytes found at the start plus the bytes written,
      less what reused archive names replaced: all is kept exactly when that is nothing. */
  lemma {:induction false} BytesConserved(r: Run, k: nat)
    requires r.Follows() && k <= |r.calls|
    ensures Stored(r.states[k]) == Stored(r.states[0]) + |Written(r, k)| - Overwritten(r, k)
    ensures Stored(r.states[k]) == Stored(r.states[0]) + |Written(r, k)| <==> Overwritten(r, k) == 0
  {
    if k > 0 {
      BytesConserved(r, k - 1);
      StoredStep(r, k - 1);
    }
  }
}
