/** When the log is archived, told from what a save changes, and how receipts are named. */
module Rotation {
  import opened Utf8
  import opened Models
  import opened Receipts
  import opened ReceiptRuns
  import TextLines

  /** A save that loses a receipt, lowers the count or touches an archive found the store with a limit and
      as many entries. */
  lemma LossMeansLimit(codec: Codec, limit: int, s: State, c: Call)
    ensures var s' := SaveSpec(codec, limit, s, c).0;
            || (exists id :: id in s.receipts && id !in s'.receipts)
            || s'.archives != s.archives || s'.entryCount < s.entryCount
            ==> limit > 0 && s.entryCount >= limit
  {
  }

  /** A save at the limit whose rename succeeds starts from an empty index and an empty log, whatever comes of it;
      the old log is the archive. */
  lemma LimitEmptiesFirst(codec: Codec, limit: int, s: State, c: Call)
    requires limit > 0 && s.entryCount >= limit && c.fate != RenameFails
    ensures var (s', saved) := SaveSpec(codec, limit, s, c);
            && s'.receipts == (if saved.Some? then map[saved.value.receiptID := saved.value] else map[])
            && s'.entryCount == (if saved.Some? then 1 else 0)
            && Content(s'.log) == Added(codec, limit, s, c)
            && s'.archives == (if s.log.Some? then s.archives[c.archive := s.log.value] else s.archives)
  {
    var added := Added(codec, limit, s, c);
    assert [] + added == added;
  }

  /** A save at the limit whose rename fails changes nothing. */
  lemma FailedRename(codec: Codec, limit: int, s: State, c: Call)
    requires limit > 0 && s.entryCount >= limit && c.fate == RenameFails
    ensures SaveSpec(codec, limit, s, c) == (s, None)
  {
  }

  /** Below the limit, or without one, a save only ever adds. */
  lemma BelowLimitAdds(codec: Codec, limit: int, s: State, c: Call)
    requires limit <= 0 || s.entryCount < limit
    ensures var (s', saved) := SaveSpec(codec, limit, s, c);
            && s'.archives == s.archives && Content(s.log) <= Content(s'.log)
            && s'.receipts == (if saved.Some? then s.receipts[saved.value.receiptID := saved.value] else s.receipts)
            && s'.entryCount == s.entryCount + if saved.Some? then 1 else 0
  {
    assert Content(s.log) + [] == Content(s.log);
  }

  /** A receipt that comes with an id keeps it; another gets the new one. Nothing else about it changes. */
  lemma SavedAsNamed(codec: Codec, limit: int, s: State, c: Call)
    requires SaveSpec(codec, limit, s, c).1.Some?
    ensures SaveSpec(codec, limit, s, c).1
         == Some(Receipt(if c.receipt.receiptID != "" then c.receipt.receiptID else c.newID, c.receipt.content))
  {
  }

  /** A save succeeds exactly when no file operation fails; a failing rename only matters at the limit. */
  lemma SavedIff(codec: Codec, limit: int, s: State, c: Call)
    ensures SaveSpec(codec, limit, s, c).1.Some?
       <==> c.fate == Fine || (c.fate == RenameFails && (limit <= 0 || s.entryCount < limit))
  {
  }

  function IdOf(c: Call): string { if c.receipt.receiptID != "" then c.receipt.receiptID else c.newID }

  ghost predicate AllFine(r: Run, n: nat)
    requires n <= |r.calls|
  {
    forall k :: 0 <= k < n ==> r.calls[k].fate == Fine
  }

  /** The call is the last of the first n to save under its id. */
  ghost predicate LastUnderId(r: Run, k: nat, n: nat)
    requires n <= |r.calls|
  {
    k < n && forall j :: k < j < n ==> IdOf(r.calls[j]) != IdOf(r.calls[k])
  }

  lemma FineStep(r: Run, n: nat)
    requires r.Follows() && n < |r.calls| && r.calls[n].fate == Fine
    requires r.limit <= 0 || r.states[n].entryCount < r.limit
    ensures var s, s', c := r.states[n], r.states[n + 1], r.calls[n];
            && s'.entryCount == s.entryCount + 1 && s'.archives == s.archives
            && s'.receipts == s.receipts[IdOf(c) := Receipt(IdOf(c), c.receipt.content)]
  {
    assert r.Saves(n);
    BelowLimitAdds(r.codec, r.limit, r.states[n], r.calls[n]);
    SavedAsNamed(r.codec, r.limit, r.states[n], r.calls[n]);
    SavedIff(r.codec, r.limit, r.states[n], r.calls[n]);
  }

  /** The receipt of the call can be looked up in the state, as it was saved. */
  predicate FoundIn(s: State, c: Call) {
    IdOf(c) in s.receipts && s.receipts[IdOf(c)] == Receipt(IdOf(c), c.receipt.content)
  }

  ghost predicate AllFound(r: Run, n: nat)
    requires n <= |r.calls| < |r.states|
  {
    && (forall k :: 0 <= k < n ==> IdOf(r.calls[k]) in r.states[n].receipts)
    && forall k: nat :: LastUnderId(r, k, n) ==> FoundIn(r.states[n], r.calls[k])
  }

  lemma FoundAfter(r: Run, n: nat)
    requires r.Follows() && n < |r.calls| && r.calls[n].fate == Fine && AllFound(r, n)
    requires r.limit <= 0 || r.states[n].entryCount < r.limit
    ensures AllFound(r, n + 1)
  {
    FineStep(r, n);
    forall k: nat | LastUnderId(r, k, n + 1) ensures FoundIn(r.states[n + 1], r.calls[k]) {
      if k < n {
        assert LastUnderId(r, k, n) && IdOf(r.calls[n]) != IdOf(r.calls[k]);
      }
    }
  }

  /** The first n calls are fine, start from an empty store and stay within the limit if there is one. */
  ghost predicate Opening(r: Run, n: nat)
    requires r.Follows() && n <= |r.calls|
  {
    && AllFine(r, n) && (r.limit <= 0 || n <= r.limit)
    && r.states[0].receipts == map[] && r.states[0].entryCount == 0
  }

  lemma OneMoreFine(r: Run, n: nat)
    requires r.Follows() && n < |r.calls| && r.calls[n].fate == Fine
    requires r.limit <= 0 || r.states[n].entryCount < r.limit
    ensures r.states[n + 1].entryCount == r.states[n].entryCount + 1 && r.states[n + 1].archives == r.states[n].archives
  {
    FineStep(r, n);
  }

  /** Such saves are all counted, and nothing is archived. */
  lemma {:induction false} FirstCounted(r: Run, n: nat)
    requires r.Follows() && n <= |r.calls| && Opening(r, n)
    ensures r.states[n].entryCount == n && r.states[n].archives == r.states[0].archives
    decreases n
  {
    if n > 0 {
      FirstCounted(r, n - 1);
      OneMoreFine(r, n - 1);
    }
  }

  /** They can all be looked up: under each id the last receipt saved under it. */
  lemma {:induction false} FirstSaves(r: Run, n: nat)
    requires r.Follows() && n <= |r.calls| && Opening(r, n)
    ensures AllFound(r, n)
    decreases n
  {
    if n == 0 {
      NoneSaved(r);
    } else {
      var m := n - 1;
      assert Opening(r, m) && r.calls[m].fate == Fine;
      FirstSaves(r, m);
      FirstCounted(r, m);
      FoundAfter(r, m);
      assert m + 1 == n;
    }
  }

  lemma NoneSaved(r: Run)
    requires r.Follows()
    ensures AllFound(r, 0)
  {
  }

  /** What a save adds to the log: the receipt's line and a newline, all of it unless the write was torn, and nothing
      if it did not come to writing. */
  lemma WrittenTold(codec: Codec, limit: int, s: State, c: Call)
    ensures var line := codec.encode(Receipt(IdOf(c), c.receipt.content)) + [10];
            var atLimit := limit > 0 && s.entryCount >= limit;
            var added := (match c.fate
                          case Fine => line
                          case SyncFails => line
                          case RenameFails => if atLimit then [] else line
                          case WriteFails(n) => if n < |line| then line[..n] else line
                          case _ => []);
            var kept := if atLimit && c.fate != RenameFails then [] else Content(s.log);
            Content(SaveSpec(codec, limit, s, c).0.log) == kept + added
  {
    var log := Content(s.log);
    assert log + [] == log;
    assert Named(c) == Receipt(IdOf(c), c.receipt.content);
    var line := LineOf(codec, Named(c));
    assert c.fate.WriteFails? && c.fate.written == |line| ==> Taken(line, c.fate.written) == line;
  }

  function LogLines(content: Bytes): seq<Bytes> { TextLines.Lines(10, content) }

  lemma EmptyReplay(codec: Codec, lines: seq<Bytes>)
    ensures Replay(codec, lines).receipts == map[] <==> forall k :: 0 <= k < |lines| ==> !codec.parse(lines[k]).Record?
  {
    var m := Replay(codec, lines).receipts;
    if k :| 0 <= k < |lines| && codec.parse(lines[k]).Record? {
      var id := codec.parse(lines[k]).receipt.receiptID;
      ReplayIsLastWins(codec, lines, id);
      assert Holds(codec, lines[k], id) && id in m;
    } else {
      forall id ensures id !in m {
        ReplayIsLastWins(codec, lines, id);
      }
    }
  }

  predicate Unreadable(codec: Codec, lines: seq<Bytes>) {
    || (exists k :: 0 <= k < |lines| && |lines[k]| >= 1048576)
    || ((exists k :: 0 <= k < |lines| && codec.parse(lines[k]) == Corrupt)
        && forall k :: 0 <= k < |lines| ==> !codec.parse(lines[k]).Record?)
  }

  /** A log cannot be opened exactly when it has a line of 1048576 bytes or more, or a corrupt line and not
      one receipt. */
  lemma OpenFailsIff(codec: Codec, content: Bytes)
    ensures Open(codec, content) == None <==> Unreadable(codec, LogLines(content))
  {
    EmptyReplay(codec, LogLines(content));
  }
}
