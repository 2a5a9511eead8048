/** The receipt store: an index in memory over an append-only log on disk that is
    archived when it is full and read back when the store is opened. */
module Receipts {
  import opened Utf8
  import opened Models
  import opened TextLines

  datatype Receipt = Receipt(receiptID: string, content: string)

  datatype Line = Blank | Record(receipt: Receipt) | Corrupt

  /** One line of the log: how a receipt is written and how a line is read. */
  datatype Codec = Codec(encode: Receipt -> Bytes, parse: Bytes -> Line)

  const NEWLINE: byte := 10
  const MAX_LINE: nat := 1024 * 1024

  ghost predicate Lawful(codec: Codec) {
    forall r :: codec.parse(codec.encode(r)) == Record(r) && NEWLINE !in codec.encode(r)
  }

  // ---------------------------------------------------------------- replay

  datatype Index = Index(receipts: map<string, Receipt>, entryCount: nat)

  const EMPTY := Index(map[], 0)

  function Enter(x: Index, line: Line): Index {
    match line
    case Record(r) => Index(x.receipts[r.receiptID := r], x.entryCount + 1)
    case _ => x
  }

  /** The last record of an id wins; lines that do not decode are skipped. */
  function Replay(codec: Codec, lines: seq<Bytes>): Index {
    if lines == [] then EMPTY else Enter(Replay(codec, lines[..|lines| - 1]), codec.parse(lines[|lines| - 1]))
  }

  predicate Holds(codec: Codec, line: Bytes, id: string) {
    codec.parse(line).Record? && codec.parse(line).receipt.receiptID == id
  }

  /** What the replay holds for an id is the last line recording it. */
  lemma {:induction false} ReplayIsLastWins(codec: Codec, lines: seq<Bytes>, id: string)
    ensures var m := Replay(codec, lines).receipts;
            if id in m then
              exists k :: 0 <= k < |lines| && Holds(codec, lines[k], id) && codec.parse(lines[k]) == Record(m[id])
                && forall j :: k < j < |lines| ==> !Holds(codec, lines[j], id)
            else forall k :: 0 <= k < |lines| ==> !Holds(codec, lines[k], id)
  {
    if lines != [] {
      var n := |lines| - 1;
      ReplayIsLastWins(codec, lines[..n], id);
      var m := Replay(codec, lines).receipts;
      if Holds(codec, lines[n], id) {
        assert codec.parse(lines[n]) == Record(m[id]);
      } else if id in m {
        var k :| 0 <= k < n && Holds(codec, lines[..n][k], id) && codec.parse(lines[..n][k]) == Record(m[id])
                 && forall j :: k < j < n ==> !Holds(codec, lines[..n][j], id);
        assert lines[..n][k] == lines[k];
        forall j | k < j < |lines| ensures !Holds(codec, lines[j], id) {
          assert j < n ==> lines[..n][j] == lines[j];
        }
      } else {
        forall k | 0 <= k < |lines| ensures !Holds(codec, lines[k], id) {
          assert k < n ==> lines[..n][k] == lines[k];
        }
      }
    }
  }

  // ---------------------------------------------------------------- recorded receipts

  /** The index of receipts recorded one after the other. */
  function Built(rs: seq<Receipt>): Index {
    if rs == [] then EMPTY else Enter(Built(rs[..|rs| - 1]), Record(rs[|rs| - 1]))
  }

  /** The receipts of the lines that decode. */
  function RecordsOf(codec: Codec, lines: seq<Bytes>): seq<Receipt> {
    if lines == [] then []
    else
      var line := codec.parse(lines[|lines| - 1]);
      RecordsOf(codec, lines[..|lines| - 1]) + if line.Record? then [line.receipt] else []
  }

  lemma BuiltSnoc(rs: seq<Receipt>, x: Receipt)
    ensures Built(rs + [x]) == Enter(Built(rs), Record(x))
  {
    assert (rs + [x])[..|rs|] == rs;
  }

  lemma {:induction false} ReplayIsBuilt(codec: Codec, lines: seq<Bytes>)
    ensures Replay(codec, lines) == Built(RecordsOf(codec, lines))
  {
    if lines != [] {
      var front, line := lines[..|lines| - 1], codec.parse(lines[|lines| - 1]);
      ReplayIsBuilt(codec, front);
      if line.Record? {
        BuiltSnoc(RecordsOf(codec, front), line.receipt);
      } else {
        assert RecordsOf(codec, front) + [] == RecordsOf(codec, front);
      }
    }
  }

  /** The receipt was recorded under the id, and none after it. */
  ghost predicate Latest(rs: seq<Receipt>, id: string, x: Receipt) {
    exists k :: 0 <= k < |rs| && rs[k] == x && x.receiptID == id && forall j :: k < j < |rs| ==> rs[j].receiptID != id
  }

  ghost predicate DistinctIds(rs: seq<Receipt>) {
    forall i, j :: 0 <= i < j < |rs| ==> rs[i].receiptID != rs[j].receiptID
  }

  lemma {:induction false} BuiltIsLatest(rs: seq<Receipt>, id: string)
    ensures var m := Built(rs).receipts;
            if id in m then Latest(rs, id, m[id]) else forall x :: x in rs ==> x.receiptID != id
  {
    if rs != [] {
      var n := |rs| - 1;
      var front := rs[..n];
      BuiltIsLatest(front, id);
      var m := Built(rs).receipts;
      if rs[n].receiptID != id && id in m {
        var k :| 0 <= k < n && front[k] == m[id] && m[id].receiptID == id
                 && forall j :: k < j < n ==> front[j].receiptID != id;
        assert rs[k] == m[id] && forall j :: k < j < n ==> rs[j] == front[j];
      }
      forall x | x in rs && x != rs[n] ensures x in front {
      }
    }
  }

  lemma DistinctSnoc(rs: seq<Receipt>, x: Receipt)
    ensures DistinctIds(rs + [x]) <==> DistinctIds(rs) && forall y :: y in rs ==> y.receiptID != x.receiptID
  {
    var w := rs + [x];
    assert w[|rs|] == x && forall k :: 0 <= k < |rs| ==> w[k] == rs[k];
    if DistinctIds(w) {
      forall y | y in rs ensures y.receiptID != x.receiptID {
        var k :| 0 <= k < |rs| && rs[k] == y;
        assert w[k].receiptID != w[|rs|].receiptID;
      }
    }
  }

  lemma KnownId(rs: seq<Receipt>, id: string)
    ensures id in Built(rs).receipts <==> exists y :: y in rs && y.receiptID == id
  {
    BuiltIsLatest(rs, id);
    if id in Built(rs).receipts {
      var k :| 0 <= k < |rs| && rs[k] == Built(rs).receipts[id] && rs[k].receiptID == id;
    }
  }

  lemma {:induction false} BuiltCount(rs: seq<Receipt>)
    ensures Built(rs).entryCount == |rs| && |Built(rs).receipts| <= |rs|
    ensures |Built(rs).receipts| == |rs| <==> DistinctIds(rs)
  {
    if rs != [] {
      var n := |rs| - 1;
      var front, x := rs[..n], rs[n];
      assert rs == front + [x];
      BuiltCount(front);
      KnownId(front, x.receiptID);
      DistinctSnoc(front, x);
      var m := Built(front).receipts;
      assert |m[x.receiptID := x]| == if x.receiptID in m then |m| else |m| + 1;
    }
  }

  predicate AllShort(lines: seq<Bytes>) { forall k :: 0 <= k < |lines| ==> |lines[k]| < MAX_LINE }

  predicate SomeCorrupt(codec: Codec, lines: seq<Bytes>) {
    exists k :: 0 <= k < |lines| && codec.parse(lines[k]) == Corrupt
  }

  /** Opening a log fails on a line beyond the reader's limit, and on a log with
      corrupt lines and nothing else. */
  function Open(codec: Codec, content: Bytes): Option<Index> {
    var lines := Lines(NEWLINE, content);
    var x := Replay(codec, lines);
    if !AllShort(lines) || (SomeCorrupt(codec, lines) && x.receipts == map[]) then None else Some(x)
  }

  /** Where the loading loop stands after some lines. */
  ghost predicate Loaded(codec: Codec, read: seq<Bytes>, x: Index, badLines: int) {
    && x == Replay(codec, read) && AllShort(read)
    && badLines >= 0 && (badLines > 0 <==> SomeCorrupt(codec, read))
  }

  lemma LoadedSnoc(codec: Codec, read: seq<Bytes>, x: Index, badLines: int, line: Bytes)
    requires Loaded(codec, read, x, badLines) && |line| < MAX_LINE
    ensures Loaded(codec, read + [line], Enter(x, codec.parse(line)),
                   if codec.parse(line) == Corrupt then badLines + 1 else badLines)
  {
    var w := read + [line];
    assert w[..|read|] == read && w[|read|] == line;
    if SomeCorrupt(codec, read) {
      var k :| 0 <= k < |read| && codec.parse(read[k]) == Corrupt;
      assert w[k] == read[k];
    }
    if SomeCorrupt(codec, w) {
      var k :| 0 <= k < |w| && codec.parse(w[k]) == Corrupt;
      assert k < |read| ==> read[k] == w[k];
    }
  }

  /** The loading loop reads one line at a time. */
  method LoadExisting(codec: Codec, content: Bytes) returns (loaded: Option<Index>)
    ensures loaded == Open(codec, content)
  {
    var x := EMPTY;
    var badLines := 0;
    var rest := content;
    ghost var read: seq<Bytes> := [];
    while rest != []
      invariant read + Lines(NEWLINE, rest) == Lines(NEWLINE, content)
      invariant Loaded(codec, read, x, badLines)
      decreases |rest|
    {
      var line := rest[..LineEnd(NEWLINE, rest)];
      LinesStep(NEWLINE, read, rest);
      if |line| >= MAX_LINE {
        assert Lines(NEWLINE, content)[|read|] == line;
        return None;
      }
      LoadedSnoc(codec, read, x, badLines, line);
      rest := Rest(NEWLINE, rest);
      read := read + [line];
      match codec.parse(line) {
        case Blank =>
        case Corrupt =>
          badLines := badLines + 1;
        case Record(r) =>
          x := Index(x.receipts[r.receiptID := r], x.entryCount + 1);
      }
    }
    assert read == Lines(NEWLINE, content);
    if badLines > 0 && |x.receipts| == 0 {
      return None;
    }
    return Some(x);
  }

  // ---------------------------------------------------------------- saving

  /** What the store holds in memory and what lies on disk; a missing log reads as empty. */
  datatype State = State(receipts: map<string, Receipt>, entryCount: int,
                         log: Option<Bytes>, archives: map<string, Bytes>)

  /** How the file operations of one save come out. A torn write leaves part of the line behind;
      a failed sync leaves all of it. */
  datatype Fate = Fine | RenameFails | MarshalFails | OpenFails | WriteFails(written: nat) | SyncFails

  datatype Call = Call(receipt: Receipt, newID: string, archive: string, fate: Fate)

  function Content(log: Option<Bytes>): Bytes { if log.Some? then log.value else [] }

  function Named(c: Call): Receipt {
    if c.receipt.receiptID == "" then c.receipt.(receiptID := c.newID) else c.receipt
  }

  predicate Full(limit: int, s: State) { limit > 0 && s.entryCount >= limit }

  /** Move the log aside, replacing an archive of the same name, and start afresh. */
  function Rotated(s: State, name: string): State {
    State(map[], 0, None, if s.log.Some? then s.archives[name := s.log.value] else s.archives)
  }

  function LineOf(codec: Codec, r: Receipt): Bytes { codec.encode(r) + [NEWLINE] }

  function Taken(b: Bytes, n: nat): Bytes { if n <= |b| then b[..n] else b }

  function Append(s: State, b: Bytes): State { s.(log := Some(Content(s.log) + b)) }

  function SaveSpec(codec: Codec, limit: int, s: State, c: Call): (State, Option<Receipt>) {
    if Full(limit, s) && c.fate == RenameFails then (s, None)
    else
      var r := Named(c);
      var s1 := if Full(limit, s) then Rotated(s, c.archive) else s;
      match c.fate
      case MarshalFails => (s1, None)
      case OpenFails => (s1, None)
      case WriteFails(n) => (Append(s1, Taken(LineOf(codec, r), n)), None)
      case SyncFails => (Append(s1, LineOf(codec, r)), None)
      case _ =>
        (Append(s1, LineOf(codec, r)).(receipts := s1.receipts[r.receiptID := r], entryCount := s1.entryCount + 1),
         Some(r))
  }

  /** Whether the save archives the log first. */
  predicate Rotates(limit: int, s: State, c: Call) { Full(limit, s) && c.fate != RenameFails }

  /** Receipts recorded since the log was last archived, after one more save. */
  function RecordedAfter(codec: Codec, limit: int, s: State, c: Call, recorded: seq<Receipt>): seq<Receipt> {
    (if Rotates(limit, s, c) then [] else recorded)
    + (if SaveSpec(codec, limit, s, c).1.Some? then [Named(c)] else [])
  }

  ghost predicate Indexes(s: State, recorded: seq<Receipt>) {
    s.receipts == Built(recorded).receipts && s.entryCount == Built(recorded).entryCount
  }

  /** What a save does to the index, seen from the outside. */
  lemma SavedIndex(codec: Codec, limit: int, s: State, c: Call)
    ensures var (s', saved) := SaveSpec(codec, limit, s, c);
            var rs := if Rotates(limit, s, c) then map[] else s.receipts;
            var n := if Rotates(limit, s, c) then 0 else s.entryCount;
            if saved.Some? then s'.receipts == rs[Named(c).receiptID := Named(c)] && s'.entryCount == n + 1
            else s'.receipts == rs && s'.entryCount == n
  {
  }

  /** Every save, whatever comes of it, keeps the index that of the receipts recorded. */
  lemma IndexesAfter(codec: Codec, limit: int, s: State, c: Call, recorded: seq<Receipt>)
    requires Indexes(s, recorded)
    ensures Indexes(SaveSpec(codec, limit, s, c).0, RecordedAfter(codec, limit, s, c, recorded))
  {
    var base := if Rotates(limit, s, c) then [] else recorded;
    SavedIndex(codec, limit, s, c);
    if SaveSpec(codec, limit, s, c).1.Some? {
      BuiltSnoc(base, Named(c));
      assert RecordedAfter(codec, limit, s, c, recorded) == base + [Named(c)];
    } else {
      assert RecordedAfter(codec, limit, s, c, recorded) == base;
    }
  }

  class ReceiptStore {
    const codec: Codec
    const maxEntries: int
    var receipts: map<string, Receipt>
    var entryCount: int
    // the directory the store works in
    var log: Option<Bytes>
    var archives: map<string, Bytes>
    // the receipts recorded since the log was last archived
    ghost var recorded: seq<Receipt>

    ghost predicate Valid() reads this { Indexes(View(), recorded) }

    ghost function View(): State reads this { State(receipts, entryCount, log, archives) }

    /** A store that has been opened: the log exists and the index was read from it. */
    constructor (codec: Codec, maxEntries: int, content: Bytes, archives: map<string, Bytes>, index: Index)
      requires Open(codec, content) == Some(index)
      ensures this.codec == codec && this.maxEntries == maxEntries
      ensures View() == State(index.receipts, index.entryCount, Some(content), archives)
      ensures Valid() && recorded == RecordsOf(codec, Lines(NEWLINE, content))
    {
      ReplayIsBuilt(codec, Lines(NEWLINE, content));
      this.recorded := RecordsOf(codec, Lines(NEWLINE, content));
      this.codec, this.maxEntries, this.archives := codec, maxEntries, archives;
      this.log, this.receipts, this.entryCount := Some(content), index.receipts, index.entryCount;
    }

    method Save(receipt: Receipt, newID: string, archive: string, fate: Fate) returns (saved: Option<Receipt>)
      requires Valid()
      modifies this
      ensures (View(), saved) == SaveSpec(codec, maxEntries, old(View()), Call(receipt, newID, archive, fate))
      ensures Valid()
      ensures recorded == RecordedAfter(codec, maxEntries, old(View()), Call(receipt, newID, archive, fate),
                                        old(recorded))
    {
      ghost var c := Call(receipt, newID, archive, fate);
      IndexesAfter(codec, maxEntries, View(), c, recorded);
      recorded := RecordedAfter(codec, maxEntries, View(), c, recorded);
      saved := SaveLocked(receipt, newID, archive, fate);
    }

    method SaveLocked(receipt: Receipt, newID: string, archive: string, fate: Fate) returns (saved: Option<Receipt>)
      modifies this`receipts, this`entryCount, this`log, this`archives
      ensures (View(), saved) == SaveSpec(codec, maxEntries, old(View()), Call(receipt, newID, archive, fate))
    {
      var r := receipt;
      if r.receiptID == "" {
        r := r.(receiptID := newID);
      }
      if maxEntries > 0 && entryCount >= maxEntries {
        var ok := RotateLocked(archive, fate);
        if !ok {
          return None;
        }
      }
      if fate == MarshalFails || fate == OpenFails {
        return None;
      }
      var data := codec.encode(r) + [NEWLINE];
      var file := if log.Some? then log.value else [];
      if fate.WriteFails? {
        log := Some(file + Taken(data, fate.written));
        return None;
      }
      log := Some(file + data);
      if fate == SyncFails {
        return None;
      }
      receipts := receipts[r.receiptID := r];
      entryCount := entryCount + 1;
      return Some(r);
    }

    method RotateLocked(archive: string, fate: Fate) returns (ok: bool)
      modifies this`receipts, this`entryCount, this`log, this`archives
      ensures ok == (fate != RenameFails)
      ensures View() == if ok then Rotated(old(View()), archive) else old(View())
    {
      if fate == RenameFails {
        return false;
      }
      if log.Some? {
        archives := archives[archive := log.value];
      }
      log := None;
      receipts := map[];
      entryCount := 0;
      return true;
    }

    /** The receipt last recorded under the id since the log was archived. */
    method Get(id: string) returns (r: Option<Receipt>)
      requires Valid()
      ensures match r
              case Some(x) => Latest(recorded, id, x)
              case None => forall x :: x in recorded ==> x.receiptID != id
    {
      BuiltIsLatest(recorded, id);
      return if id in receipts then Some(receipts[id]) else None;
    }

    /** Receipts recorded under one id count once, although each is an entry. */
    method Count() returns (n: int)
      requires Valid()
      ensures n <= entryCount == |recorded|
      ensures n == entryCount <==> DistinctIds(recorded)
    {
      BuiltCount(recorded);
      return |receipts|;
    }
  }

  const DEFAULT_PATH := "datafog_receipts.jsonl"

  predicate BadPath(path: string) { '\0' in path }

  /** `accessible` says whether the directory could be made and the file created and opened. */
  method NewReceiptStore(codec: Codec, maxEntries: int, path: string, accessible: bool, log: Option<Bytes>,
                         archives: map<string, Bytes>)
    returns (store: ReceiptStore?)
    ensures store == null <==> BadPath(path) || !accessible || Open(codec, Content(log)) == None
    ensures store != null ==> fresh(store) && store.codec == codec && store.maxEntries == maxEntries
    ensures store != null ==> var x := Open(codec, Content(log)).value;
              store.View() == State(x.receipts, x.entryCount, Some(Content(log)), archives)
    ensures store != null ==> store.Valid() && store.recorded == RecordsOf(codec, Lines(NEWLINE, Content(log)))
  {
    var filePath := if path == "" then DEFAULT_PATH else path;
    if '\0' in filePath || !accessible {
      return null;
    }
    var content := if log.Some? then log.value else [];
    var loaded := LoadExisting(codec, content);
    if loaded.None? {
      return null;
    }
    store := new ReceiptStore(codec, maxEntries, content, archives, loaded.value);
  }
}
