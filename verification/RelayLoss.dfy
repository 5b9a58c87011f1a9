/** Exactly when some run of the relay alters what is queued, and exactly when some
    run loses it. */
module RelayLoss {
  import opened Options
  import opened Xrange
  import opened Relay
  import opened RelayRuns

  /** Rows as the stream and the writers make them. */
  ghost predicate Queueable(q: set<Stored>) {
    && (forall row | row in q :: WellFormed(row) && DistinctNames(row.row))
    && (forall a, b | a in q && b in q && a.id == b.id :: a == b)
  }

  ghost predicate Over(q: set<Stored>, events: seq<Event>) {
    forall e | e in events && e.Enqueue? :: e.row in q
  }

  ghost predicate Ends(link: Link, q: set<Stored>, trace: seq<World>, events: seq<Event>, w: World) {
    Follows(link, trace, events) && Over(q, events) && trace[|events|] == w
  }

  /** Some run that queues only rows of `q` gets here. */
  ghost predicate Possible(link: Link, q: set<Stored>, w: World) {
    exists trace, events :: Ends(link, q, trace, events, w)
  }

  lemma PossibleEmpty(link: Link, q: set<Stored>)
    ensures Possible(link, q, EMPTY)
  {
    assert Ends(link, q, [EMPTY], [], EMPTY);
  }

  lemma PossibleNext(link: Link, q: set<Stored>, w: World, e: Event)
    requires Possible(link, q, w) && Enabled(w, e) && (e.Enqueue? ==> e.row in q)
    ensures Possible(link, q, Apply(link, w, e))
  {
    var trace, events :| Ends(link, q, trace, events, w);
    var longer, more, v := trace + [Apply(link, w, e)], events + [e], Apply(link, w, e);
    forall i | 0 <= i < |more| ensures Enabled(longer[i], more[i]) && longer[i + 1] == Apply(link, longer[i], more[i]) {
      if i < |events| {
        assert Enabled(trace[i], events[i]) && trace[i + 1] == Apply(link, trace[i], events[i]);
      }
    }
    assert Ends(link, q, longer, more, v);
  }

  /** What every possible world satisfies: the invariants, over rows of `q`. */
  lemma PossibleInv(link: Link, q: set<Stored>, w: World) returns (origin: iset<Entry>)
    requires Possible(link, q, w)
    ensures Inv(link, w, origin) && forall row | row in w.queued :: row in q
    ensures forall entry | entry in origin :: FromText(link, w.queued, entry)
  {
    var trace, events :| Ends(link, q, trace, events, w);
    QueuedOver(link, q, trace, events);
    var v;
    v, origin := RunInv(link, trace, events);
  }

  lemma {:induction false} QueuedOver(link: Link, q: set<Stored>, trace: seq<World>, events: seq<Event>)
    requires Follows(link, trace, events) && Over(q, events)
    ensures forall row | row in trace[|events|].queued :: row in q
  {
    if events != [] {
      var n := |events| - 1;
      FollowsBefore(link, trace, events);
      QueuedOver(link, q, trace[..n + 1], events[..n]);
      assert Enabled(trace[n], events[n]) && trace[n + 1] == Apply(link, trace[n], events[n]) && events[n] in events;
    }
  }

  // ----- runs that read given rows

  lemma {:induction false} EnqueueAll(link: Link, q: set<Stored>, rows: seq<Stored>)
    requires Queueable(q) && DistinctIds(rows) && forall row | row in rows :: row in q
    ensures Possible(link, q, World(rows, rows, map[], [], []))
  {
    if rows == [] {
      PossibleEmpty(link, q);
    } else {
      var front, row := rows[..|rows| - 1], rows[|rows| - 1];
      assert rows == front + [row];
      EnqueueAll(link, q, front);
      PossibleNext(link, q, World(front, front, map[], [], []), Enqueue(row));
    }
  }

  function Holding(outbox: seq<Stored>, pending: seq<Entry>): World {
    World(outbox, outbox, map[0 := Run(pending, None)], [], [])
  }

  lemma ReadAll(link: Link, q: set<Stored>, rows: seq<Stored>)
    requires Queueable(q) && DistinctIds(rows) && (forall row | row in rows :: row in q) && |rows| <= link.batch
    ensures Possible(link, q, Holding(rows, Read(Text(rows))))
  {
    EnqueueAll(link, q, rows);
    assert FirstRows(rows, link.batch) == rows;
    PossibleNext(link, q, World(rows, rows, map[], [], []), Start(0));
  }

  /** Every circumstance favourable. */
  const ACCEPTING := Surroundings("", {}, false, Done, OnwardQueued)

  lemma {:induction false} LosePosts(link: Link, q: set<Stored>, outbox: seq<Stored>, pending: seq<Entry>, k: nat)
    requires Possible(link, q, Holding(outbox, pending)) && k <= |pending|
    ensures Possible(link, q, Holding(outbox, pending[k..]))
  {
    if k == 0 {
      assert pending[0..] == pending;
    } else {
      LosePosts(link, q, outbox, pending, k - 1);
      var rest := pending[k - 1..];
      assert rest[1..] == pending[k..];
      PossibleNext(link, q, Holding(outbox, rest), Post(0, RequestLost, ACCEPTING));
      assert Apply(link, Holding(outbox, rest), Post(0, RequestLost, ACCEPTING)) == Holding(outbox, pending[k..]);
    }
  }

  lemma AcceptAndDelete(link: Link, q: set<Stored>, outbox: seq<Stored>, pending: seq<Entry>) returns (w: World)
    requires Possible(link, q, Holding(outbox, pending)) && pending != [] && Sendable(link, pending[0])
    ensures Possible(link, q, w) && w.queued == outbox && w.outbox == Without(outbox, pending[0].id)
    ensures forall entry | Accepted(w, entry) :: entry == pending[0]
  {
    var posted := Apply(link, Holding(outbox, pending), Post(0, Answered, ACCEPTING));
    PossibleNext(link, q, Holding(outbox, pending), Post(0, Answered, ACCEPTING));
    AcceptedNow(link, pending[0]);
    PossibleNext(link, q, posted, Delete(0, true));
    w := Apply(link, posted, Delete(0, true));
  }

  lemma AcceptedNow(link: Link, entry: Entry)
    requires Sendable(link, entry)
    ensures Succeeded(AnswerTo(Answered,
              Receive(link.receiver, BuildSendPayload(link.peerId, link.thisCabinet, entry), ACCEPTING).reply))
  {
  }

  // ----- altering

  /** Whatever runs carry, and whatever was acknowledged or received, is the content of
      a queued row. */
  ghost predicate Unaltered(w: World) {
    && (forall pid | pid in w.runs :: forall entry | entry in w.runs[pid].pending :: KnownEntry(w.queued, entry))
    && (forall k | 0 <= k < |w.accepted| :: KnownEntry(w.queued, w.accepted[k].0))
    && (forall k | 0 <= k < |w.received| :: KnownEntry(w.queued, w.received[k].0))
  }

  lemma CleanIsUnaltered(link: Link, q: set<Stored>, w: World)
    requires Queueable(q) && (forall row | row in q :: CleanValues(row)) && Possible(link, q, w)
    ensures Unaltered(w)
  {
    var origin := PossibleInv(link, q, w);
    forall entry | entry in origin ensures KnownEntry(w.queued, entry) {
      CleanTextIsKnown(link, w.queued, entry);
    }
  }

  /** A row whose values are not clean is read as an entry with its id, but not as
      itself. */
  lemma UncleanIsAltered(row: Stored)
    requires WellFormed(row) && DistinctNames(row.row) && !CleanValues(row)
    ensures Read(Text([row])) != [] && !KnownEntry([row], Read(Text([row]))[0])
  {
    var text := Text([row]);
    assert PrintEntries([row]) == [row.id] + (PrintRow(row.row) + PrintEntries([]));
    var rest := Join(PrintRow(row.row) + PrintEntries([]));
    assert ([row.id] + (PrintRow(row.row) + PrintEntries([])))[1..] == PrintRow(row.row) + PrintEntries([]);
    assert text == row.id + "\n" + rest;
    SplitFirst(row.id, rest);
    var lines := StripAll(SplitLines(text));
    assert lines[0] == row.id && lines == [row.id] + lines[1..];
    IdParses(row.id, lines[1..]);
    SplitGivesLines(text);
    StrippedIsClean(SplitLines(text));
    ParsedClean(lines);
    var first := Read(text)[0];
    assert first in Read(text) && FieldsClean(first.fields);
    if first == EntryOf(row) {
      forall f | f in row.row ensures Clean(f.value) {
        var j :| 0 <= j < |row.row| && row.row[j] == f;
        FieldMapHolds(row.row, map[], j);
      }
      assert CleanValues(row);
      assert false;
    }
  }

  /** No run over these rows ever alters one of them if and only if every value is a
      single trimmed line. */
  lemma UnalteredExactly(link: Link, q: set<Stored>)
    requires Queueable(q) && link.batch >= 1
    ensures (forall w | Possible(link, q, w) :: Unaltered(w)) <==> (forall row | row in q :: CleanValues(row))
  {
    if forall row | row in q :: CleanValues(row) {
      forall w | Possible(link, q, w) ensures Unaltered(w) {
        CleanIsUnaltered(link, q, w);
      }
    } else {
      var row :| row in q && !CleanValues(row);
      UncleanIsAltered(row);
      ReadAll(link, q, [row]);
      var w := Holding([row], Read(Text([row])));
      assert 0 in w.runs && w.runs[0].pending[0] in w.runs[0].pending;
      assert Possible(link, q, w) && !Unaltered(w);
    }
  }

  // ----- losing

  /** Neither in the outbox nor ever acknowledged as itself. */
  ghost predicate Lost(w: World, row: Stored) {
    row in w.queued && row !in w.outbox && !Accepted(w, EntryOf(row))
  }

  /** Some of the rows, in some order, print so that an entry with a row's id, but not
      its content, is read and would be taken by the receiver. */
  ghost predicate Misread(link: Link, q: set<Stored>, rows: seq<Stored>, entry: Entry, row: Stored) {
    && |rows| <= link.batch && DistinctIds(rows) && (forall r | r in rows :: r in q) && row in q
    && entry in Read(Text(rows)) && entry.id == row.id && entry != EntryOf(row) && Sendable(link, entry)
  }

  lemma LostMeansMisread(link: Link, q: set<Stored>, w: World, row: Stored)
    requires Queueable(q) && Possible(link, q, w) && Lost(w, row)
    ensures exists rows, entry :: Misread(link, q, rows, entry, row)
  {
    var origin := PossibleInv(link, q, w);
    var k :| 0 <= k < |w.accepted| && w.accepted[k].0.id == row.id;
    var entry := w.accepted[k].0;
    assert Accepted(w, entry);
    var rows :| Snapshot(link, w.queued, rows) && entry in Read(Text(rows));
    assert Misread(link, q, rows, entry, row);
  }

  lemma MisreadLoses(link: Link, q: set<Stored>, rows: seq<Stored>, entry: Entry, row: Stored) returns (w: World)
    requires Queueable(q) && Misread(link, q, rows, entry, row)
    ensures Possible(link, q, w) && Lost(w, row)
  {
    var entries := Read(Text(rows));
    var k :| 0 <= k < |entries| && entries[k] == entry;
    ReadAll(link, q, rows);
    LosePosts(link, q, rows, entries, k);
    if row in rows {
      w := AcceptAndDelete(link, q, rows, entries[k..]);
    } else {
      w := LateAndLost(link, q, rows, entries[k..], row);
    }
  }

  /** The row is queued only after the others were read. */
  lemma LateAndLost(link: Link, q: set<Stored>, rows: seq<Stored>, pending: seq<Entry>, row: Stored) returns (w: World)
    requires Queueable(q) && Possible(link, q, Holding(rows, pending)) && (forall r | r in rows :: r in q)
    requires row in q && row !in rows && pending != [] && pending[0].id == row.id
    requires pending[0] != EntryOf(row) && Sendable(link, pending[0])
    ensures Possible(link, q, w) && Lost(w, row)
  {
    PossibleNext(link, q, Holding(rows, pending), Enqueue(row));
    assert Apply(link, Holding(rows, pending), Enqueue(row)) == Holding(rows + [row], pending);
    w := AcceptAndDelete(link, q, rows + [row], pending);
  }

  /** Some run over these rows loses the content of one of them if and only if some of
      them print so that it is misread. */
  lemma LossExactly(link: Link, q: set<Stored>)
    requires Queueable(q)
    ensures (exists w, row :: Possible(link, q, w) && Lost(w, row))
            <==> (exists rows, entry, row :: Misread(link, q, rows, entry, row))
  {
    if w, row :| Possible(link, q, w) && Lost(w, row) {
      LostMeansMisread(link, q, w, row);
    }
    if rows, entry, row :| Misread(link, q, rows, entry, row) {
      var w := MisreadLoses(link, q, rows, entry, row);
    }
  }

  lemma CleanIsNeverMisread(link: Link, q: set<Stored>, rows: seq<Stored>, entry: Entry, row: Stored)
    requires Queueable(q) && forall r | r in q :: CleanValues(r)
    ensures !Misread(link, q, rows, entry, row)
  {
    if forall r | r in rows :: r in q {
      ReadsKnownEntries(rows, rows);
    }
  }

  /** Rows of single trimmed lines are never misread, so none of them is ever lost. */
  lemma CleanIsNeverLost(link: Link, q: set<Stored>, w: World, row: Stored)
    requires Queueable(q) && (forall r | r in q :: CleanValues(r)) && Possible(link, q, w)
    ensures !Lost(w, row)
  {
    forall rows, entry ensures !Misread(link, q, rows, entry, row) {
      CleanIsNeverMisread(link, q, rows, entry, row);
    }
    if Lost(w, row) {
      LostMeansMisread(link, q, w, row);
    }
  }
}
