/** The append-only build log (and deployment event log) and reading it by cursor. */
module AppendLog {
  import opened Common
  import opened Text

  datatype Entry = Entry(owner: Uuid, sequence: int, stream: string, message: string)

  /** The rows of one build, in the order they were inserted. */
  function Entries(rows: seq<Entry>, owner: Uuid): seq<Entry> {
    if rows == [] then []
    else
      var last := rows[|rows| - 1];
      Entries(rows[..|rows| - 1], owner) + (if last.owner == owner then [last] else [])
  }

  function MaxSequence(rows: seq<Entry>, owner: Uuid): int {
    if rows == [] then 0
    else
      var last := rows[|rows| - 1];
      var before := MaxSequence(rows[..|rows| - 1], owner);
      if last.owner == owner && last.sequence > before then last.sequence else before
  }

  function Clamp(limit: int): (c: int)
    ensures 1 <= c <= 501
  {
    if limit < 1 then 200 else if limit > 501 then 501 else limit
  }

  /** The entries with a sequence above the cursor, in insertion order. */
  function EntriesAfter(entries: seq<Entry>, after: int): seq<Entry> {
    if entries == [] then []
    else
      var last := entries[|entries| - 1];
      EntriesAfter(entries[..|entries| - 1], after) + (if last.sequence > after then [last] else [])
  }

  function Take(entries: seq<Entry>, n: nat): seq<Entry> {
    if |entries| <= n then entries else entries[..n]
  }

  /** One page of the entries after a cursor; in a numbered log insertion order is sequence order. */
  function Page(rows: seq<Entry>, owner: Uuid, after: int, limit: int): seq<Entry> {
    Take(EntriesAfter(Entries(rows, owner), after), Clamp(limit))
  }

  /** Each owner's entries are numbered 1, 2, 3 and so on. */
  ghost predicate Numbered(entries: seq<Entry>) {
    forall i :: 0 <= i < |entries| ==> entries[i].sequence == i + 1
  }

  const MAX_MESSAGE_BYTES := 65536

  predicate IsValid(stream: string, message: string) {
    stream in ["system", "pack"] && TrimSpace(message) != "" && ByteLength(message) <= MAX_MESSAGE_BYTES
  }

  class LogTable {
    var rows: seq<Entry>

    constructor ()
      ensures rows == []
    {
      rows := [];
    }

    method NextSequence(owner: Uuid) returns (next: int)
      ensures next == MaxSequence(rows, owner) + 1
    {
      var top := 0;
      for i := 0 to |rows|
        invariant top == MaxSequence(rows[..i], owner)
      {
        assert rows[..i + 1][..i] == rows[..i];
        if rows[i].owner == owner && rows[i].sequence > top {
          top := rows[i].sequence;
        }
      }
      assert rows[..|rows|] == rows;
      next := top + 1;
    }

    method Create(owner: Uuid, sequence: int, stream: string, message: string) returns (ok: bool)
      modifies this
      ensures ok == (sequence >= 1 && IsValid(stream, message))
      ensures rows == if ok then old(rows) + [Entry(owner, sequence, stream, message)] else old(rows)
    {
      ok := sequence >= 1 && IsValid(stream, message);
      if ok {
        rows := rows + [Entry(owner, sequence, stream, message)];
      }
    }

    /** Numbering and inserting in one transaction keeps every log numbered from 1. */
    method Append(owner: Uuid, stream: string, message: string) returns (ok: bool)
      requires forall o :: Numbered(Entries(rows, o))
      modifies this
      ensures forall o :: Numbered(Entries(rows, o))
      ensures ok == IsValid(stream, message)
      ensures rows ==
              if ok then old(rows) + [Entry(owner, |Entries(old(rows), owner)| + 1, stream, message)] else old(rows)
    {
      AppendKeepsNumbers(rows, owner, stream, message);
      var next := NextSequence(owner);
      ok := Create(owner, next, stream, message);
    }
  }

  lemma {:induction false} MaxIsCount(rows: seq<Entry>, owner: Uuid)
    requires Numbered(Entries(rows, owner))
    ensures MaxSequence(rows, owner) == |Entries(rows, owner)|
    decreases rows
  {
    if rows == [] {
    } else {
      var init, last := rows[..|rows| - 1], rows[|rows| - 1];
      var before := Entries(init, owner);
      assert Numbered(before) by {
        assert forall i :: 0 <= i < |before| ==> Entries(rows, owner)[i] == before[i];
      }
      MaxIsCount(init, owner);
      if last.owner == owner {
        assert Entries(rows, owner)[|before|] == last;
      }
    }
  }

  lemma EntriesAppend(rows: seq<Entry>, e: Entry, owner: Uuid)
    ensures Entries(rows + [e], owner) == Entries(rows, owner) + (if e.owner == owner then [e] else [])
  {
    assert (rows + [e])[..|rows|] == rows;
  }

  lemma AppendKeepsNumbers(rows: seq<Entry>, owner: Uuid, stream: string, message: string)
    requires forall o :: Numbered(Entries(rows, o))
    ensures MaxSequence(rows, owner) + 1 == |Entries(rows, owner)| + 1
    ensures var e := Entry(owner, MaxSequence(rows, owner) + 1, stream, message);
            forall o :: Numbered(Entries(rows + [e], o))
  {
    MaxIsCount(rows, owner);
    var e := Entry(owner, MaxSequence(rows, owner) + 1, stream, message);
    forall o ensures Numbered(Entries(rows + [e], o)) {
      EntriesAppend(rows, e, o);
    }
  }

  // ---------------------------------------------------------------- cursor reading

  /** A reader has asked for pages of one owner's log and kept what it got. */
  datatype System = System(rows: seq<Entry>, cursor: int, seen: seq<Entry>)

  /** A refused append changes nothing, so only accepted ones appear in a run. */
  datatype Event = Append(owner: Uuid, stream: string, message: string) | ReadPage(limit: int)

  function ApplyRead(s: System, owner: Uuid, limit: int): System {
    var page := Page(s.rows, owner, s.cursor, limit);
    if page == [] then s else s.(cursor := page[|page| - 1].sequence, seen := s.seen + page)
  }

  function Apply(s: System, e: Event, owner: Uuid): System {
    match e
    case Append(o, stream, message) =>
      s.(rows := s.rows + [Entry(o, MaxSequence(s.rows, o) + 1, stream, message)])
    case ReadPage(limit) => ApplyRead(s, owner, limit)
  }

  function Run(events: seq<Event>, owner: Uuid): System {
    if events == [] then System([], 0, [])
    else Apply(Run(events[..|events| - 1], owner), events[|events| - 1], owner)
  }

  /** What the reader has is exactly the first `cursor` entries. */
  ghost predicate Inv(s: System, owner: Uuid) {
    && (forall o :: Numbered(Entries(s.rows, o)))
    && 0 <= s.cursor <= |Entries(s.rows, owner)|
    && s.seen == Entries(s.rows, owner)[..s.cursor]
  }

  lemma {:induction false} AfterCursor(entries: seq<Entry>, after: nat, n: nat)
    requires Numbered(entries) && n <= |entries|
    ensures EntriesAfter(entries[..n], after) == if after >= n then [] else entries[after..n]
    decreases n
  {
    if n > 0 {
      AfterCursor(entries, after, n - 1);
      assert entries[..n][..n - 1] == entries[..n - 1];
      assert entries[..n][n - 1] == entries[n - 1];
    }
  }

  /** A page is the stretch of entries from the cursor on, as long as the clamped limit allows. */
  lemma PageIsStretch(rows: seq<Entry>, owner: Uuid, cursor: nat, limit: int)
    requires Numbered(Entries(rows, owner)) && cursor <= |Entries(rows, owner)|
    ensures var entries := Entries(rows, owner);
            var end := if |entries| - cursor <= Clamp(limit) then |entries| else cursor + Clamp(limit);
            Page(rows, owner, cursor, limit) == entries[cursor..end]
  {
    var entries := Entries(rows, owner);
    AfterCursor(entries, cursor, |entries|);
    assert entries[..|entries|] == entries;
    var tail := entries[cursor..];
    assert EntriesAfter(entries, cursor) == tail;
    TakeStretch(entries, cursor, Clamp(limit));
  }

  lemma TakeStretch(entries: seq<Entry>, cursor: nat, n: nat)
    requires cursor <= |entries|
    ensures Take(entries[cursor..], n) ==
            entries[cursor..if |entries| - cursor <= n then |entries| else cursor + n]
  {
  }

  function Unread(s: System, owner: Uuid): int {
    |Entries(s.rows, owner)| - s.cursor
  }

  lemma ReadStep(s: System, owner: Uuid, limit: int)
    requires Inv(s, owner)
    ensures Inv(ApplyRead(s, owner, limit), owner)
    ensures Unread(ApplyRead(s, owner, limit), owner) ==
            if Unread(s, owner) <= Clamp(limit) then 0 else Unread(s, owner) - Clamp(limit)
  {
    var entries := Entries(s.rows, owner);
    var page := Page(s.rows, owner, s.cursor, limit);
    PageIsStretch(s.rows, owner, s.cursor, limit);
    var end := s.cursor + |page|;
    assert page == entries[s.cursor..end];
    assert entries[..s.cursor] + page == entries[..end];
  }

  /**
   For any interleaving of appends and page reads, with any limits: sequences are
   1..n, and the pages put together are entries 1..cursor, with no gap or repeat.
   */
  lemma {:induction false} CursorReadingIsExact(events: seq<Event>, owner: Uuid)
    ensures Inv(Run(events, owner), owner)
    decreases events
  {
    if events == [] {
    } else {
      var s := Run(events[..|events| - 1], owner);
      CursorReadingIsExact(events[..|events| - 1], owner);
      match events[|events| - 1]
      case Append(o, stream, message) =>
        AppendKeepsNumbers(s.rows, o, stream, message);
        EntriesAppend(s.rows, Entry(o, MaxSequence(s.rows, o) + 1, stream, message), owner);
      case ReadPage(limit) =>
        ReadStep(s, owner, limit);
    }
  }

  function ReadMany(s: System, owner: Uuid, limits: seq<int>): System {
    if limits == [] then s else ApplyRead(ReadMany(s, owner, limits[..|limits| - 1]), owner, limits[|limits| - 1])
  }

  /** Once appends stop every page makes progress, whatever limit was asked for, so reading ends. */
  lemma {:induction false} ReadingDrains(s: System, owner: Uuid, limits: seq<int>)
    requires Inv(s, owner)
    ensures Inv(ReadMany(s, owner, limits), owner)
    ensures ReadMany(s, owner, limits).rows == s.rows
    ensures Unread(ReadMany(s, owner, limits), owner) <=
            if Unread(s, owner) <= |limits| then 0 else Unread(s, owner) - |limits|
    ensures |limits| >= Unread(s, owner) ==> ReadMany(s, owner, limits).seen == Entries(s.rows, owner)
    decreases limits
  {
    if limits == [] {
    } else {
      ReadingDrains(s, owner, limits[..|limits| - 1]);
      ReadStep(ReadMany(s, owner, limits[..|limits| - 1]), owner, limits[|limits| - 1]);
    }
  }

  /** A limit from 1 to 501 is the page size; below that it is 200, above that 501. */
  lemma PageSizes(rows: seq<Entry>, owner: Uuid, after: int, limit: int)
    ensures var unread := EntriesAfter(Entries(rows, owner), after);
            && Page(rows, owner, after, limit) <= unread
            && (1 <= limit <= 501 ==>
                  |Page(rows, owner, after, limit)| == if |unread| < limit then |unread| else limit)
            && (limit < 1 ==> Page(rows, owner, after, limit) == Page(rows, owner, after, 200))
            && (limit > 501 ==> Page(rows, owner, after, limit) == Page(rows, owner, after, 501))
  {
  }

  /** A message is taken exactly if its stream is known, it is not blank and it has at most 65536 bytes in UTF-8. */
  lemma ValidExactly(stream: string, message: string)
    ensures IsValid(stream, message) <==>
            (stream == "system" || stream == "pack") && !IsBlank(message) && |Encoded(message)| <= 65536
  {
    BlankExactly(message);
    ByteLengthIs(message);
  }
}
