/** What a value of several lines does to the relay: the two ways in which the
    no-loss guarantee fails when values are not single trimmed lines. Each rests
    on a stream that prints exactly like another, well-formed one. */
module RelayLimits {
  import opened Options
  import opened Xrange
  import opened Relay
  import opened RelayRuns
  import opened RelayLoss

  // ----- how rows print

  function RowText(row: seq<Field>): string {
    Join(PrintRow(row))
  }

  lemma {:induction false} JoinAppend(xs: seq<string>, ys: seq<string>)
    ensures Join(xs + ys) == Join(xs) + Join(ys)
  {
    if xs == [] {
      assert xs + ys == ys;
    } else {
      JoinAppend(xs[1..], ys);
      assert (xs + ys)[1..] == xs[1..] + ys;
    }
  }

  lemma {:induction false} PrintRowAppend(xs: seq<Field>, ys: seq<Field>)
    ensures PrintRow(xs + ys) == PrintRow(xs) + PrintRow(ys)
  {
    if xs == [] {
      assert xs + ys == ys;
    } else {
      PrintRowAppend(xs[1..], ys);
      assert (xs + ys)[1..] == xs[1..] + ys;
    }
  }

  lemma RowTextAppend(xs: seq<Field>, ys: seq<Field>)
    ensures RowText(xs + ys) == RowText(xs) + RowText(ys)
  {
    PrintRowAppend(xs, ys);
    JoinAppend(PrintRow(xs), PrintRow(ys));
  }

  lemma FieldText(f: Field)
    ensures RowText([f]) == f.name + "\n" + f.value + "\n"
  {
    assert [f][1..] == [] && [f.name, f.value][1..] == [f.value] && [f.value][1..] == [];
    assert PrintRow([f]) == [f.name, f.value];
    assert Join([f.value]) == f.value + "\n";
  }

  lemma EntryText(e: Stored, rest: seq<Stored>)
    ensures Text([e] + rest) == e.id + "\n" + (RowText(e.row) + Text(rest))
  {
    assert ([e] + rest)[1..] == rest;
    var tail := PrintRow(e.row) + PrintEntries(rest);
    assert ([e.id] + tail)[1..] == tail;
    JoinAppend(PrintRow(e.row), PrintEntries(rest));
  }

  // ----- a handoff whose reason has two lines

  ghost predicate TwoLineHandoff(row: Stored, id: string, cabinet: string, agent: string, slug: string,
                                 a: string, b: string, ts: string) {
    && row == HandoffRow(id, cabinet, agent, slug, a + "\n" + b, ts)
    && Clean(id) && IdShaped(id)
    && Clean(cabinet) && Clean(agent) && Clean(slug) && Clean(ts)
    && Clean(a) && a != "" && GoodName(b) && b != "content"
  }

  /** The row that prints alike: from the second line of the reason on, names and
      values have swapped places. */
  function Shifted(id: string, cabinet: string, agent: string, slug: string, a: string, b: string, ts: string): Stored {
    Stored(id, Head(cabinet, agent, slug) + Tail(slug, a, b, ts))
  }

  function Tail(slug: string, a: string, b: string, ts: string): seq<Field> {
    [Field("reason", a)] + ([Field(b, "content")] + ([Field(HandoffContent(slug, a), b)] + [Field("ts", ts)]))
  }

  function Head(cabinet: string, agent: string, slug: string): seq<Field> {
    [Field("from_cabinet", cabinet), Field("from_agent", agent), Field("kind", HANDOFF), Field("context_slug", slug)]
  }

  lemma Spliced(reason: string, a: string, b: string, content: string, c: string, rest: string)
    ensures reason + "\n" + (a + "\n" + b) + "\n" + (content + "\n" + (c + "\n" + b) + "\n" + rest)
            == reason + "\n" + a + "\n" + (b + "\n" + content + "\n" + (c + "\n" + b + "\n" + rest))
  {
  }

  lemma PrintsShifted(row: Stored, id: string, cabinet: string, agent: string, slug: string, a: string, b: string, ts: string)
    requires row == HandoffRow(id, cabinet, agent, slug, a + "\n" + b, ts)
    ensures RowText(row.row) == RowText(Shifted(id, cabinet, agent, slug, a, b, ts).row)
  {
    var head, last, c := Head(cabinet, agent, slug), [Field("ts", ts)], HandoffContent(slug, a);
    var reason, content := Field("reason", a + "\n" + b), Field("content", c + "\n" + b);
    assert HandoffContent(slug, a + "\n" + b) == c + "\n" + b;
    assert row.row == head + ([reason] + ([content] + last));
    RowTextAppend(head, [reason] + ([content] + last));
    RowTextAppend([reason], [content] + last);
    RowTextAppend([content], last);
    FieldText(reason);
    FieldText(content);
    var first, second, third := Field("reason", a), Field(b, "content"), Field(c, b);
    RowTextAppend(head, [first] + ([second] + ([third] + last)));
    RowTextAppend([first], [second] + ([third] + last));
    RowTextAppend([second], [third] + last);
    RowTextAppend([third], last);
    FieldText(first);
    FieldText(second);
    FieldText(third);
    Spliced("reason", a, b, "content", c, RowText(last));
  }

  lemma ContentIsClean(slug: string, a: string)
    requires OneLine(slug) && Clean(a) && a != ""
    ensures GoodName(HandoffContent(slug, a)) && HandoffContent(slug, a) != "content"
  {
    var c := HandoffContent(slug, a);
    assert c[0] == '[' && "content"[0] == 'c' && c[|c| - 1] == a[|a| - 1];
    assert OneLine("[handoff request] context '") && OneLine("': ");
  }

  lemma ShiftedIsWellFormed(id: string, cabinet: string, agent: string, slug: string, a: string, b: string, ts: string)
    requires TwoLineHandoff(HandoffRow(id, cabinet, agent, slug, a + "\n" + b, ts), id, cabinet, agent, slug, a, b, ts)
    ensures var e := Shifted(id, cabinet, agent, slug, a, b, ts);
            WellFormed(e) && CleanValues(e) && forall f | f in e.row :: f.name != "content"
  {
    HeadIsGood(cabinet, agent, slug);
    TailIsGood(slug, a, b, ts);
  }

  predicate GoodField(f: Field) {
    GoodName(f.name) && Clean(f.value) && f.name != "content"
  }

  lemma TailIsGood(slug: string, a: string, b: string, ts: string)
    requires OneLine(slug) && Clean(a) && a != "" && GoodName(b) && b != "content" && Clean(ts)
    ensures forall f | f in Tail(slug, a, b, ts) :: GoodField(f)
  {
    ContentIsClean(slug, a);
    TailNamesAreGood();
    OnlyContentIsContent();
    assert GoodField(Field("reason", a)) && GoodField(Field("ts", ts));
    assert GoodField(Field(b, "content")) && GoodField(Field(HandoffContent(slug, a), b));
  }

  lemma HeadNamesAreGood()
    ensures GoodName("from_cabinet") && GoodName("from_agent") && GoodName("kind") && GoodName("context_slug")
  {
  }

  lemma TailNamesAreGood()
    ensures GoodName("reason") && GoodName("content") && GoodName("ts") && Clean(HANDOFF)
  {
  }

  lemma OnlyContentIsContent()
    ensures "content" !in ["from_cabinet", "from_agent", "kind", "context_slug", "reason", "ts"]
  {
  }

  lemma HeadIsGood(cabinet: string, agent: string, slug: string)
    requires Clean(cabinet) && Clean(agent) && Clean(slug)
    ensures forall f | f in Head(cabinet, agent, slug) :: GoodField(f)
  {
    HeadNamesAreGood();
    TailNamesAreGood();
    OnlyContentIsContent();
  }

  /** Pairs are taken as they come, whatever follows them. */
  lemma {:induction false} RowParses(row: seq<Field>, rest: seq<string>, fields: Fields)
    requires forall f | f in row :: Parseable(f)
    ensures ParseFields(PrintRow(row) + rest, fields) == ParseFields(rest, FieldMap(row, fields))
    decreases |row|
  {
    if row == [] {
      assert PrintRow(row) + rest == rest;
    } else {
      var f, more := row[0], PrintRow(row[1..]);
      assert Parseable(f);
      RowParses(row[1..], rest, fields[f.name := f.value]);
      PairParses(f, more + rest, fields);
      assert PrintRow(row) + rest == [f.name, f.value] + (more + rest);
    }
  }

  /** The second line of the reason is taken for a name, a blank or the next id. */
  lemma TailParses(b: string, c: string, ts: string, fields: Fields)
    requires c != "" && !IdShaped(c) && c != "content" && "content" !in fields
    ensures var r := ParseFields([b, "content", c, b, "ts", ts], fields);
            "content" in r.0 <==> b == "" || b == "content"
  {
    var tail := [b, "content", c, b, "ts", ts];
    assert "content"[0] == 'c' && "ts"[0] == 't';
    if b == "" {
      assert tail[1..] == ["content", c] + ["", "ts", ts];
      PairParses(Field("content", c), ["", "ts", ts], fields);
      assert ["", "ts", ts][1..] == ["ts", ts] + [];
      PairParses(Field("ts", ts), [], fields["content" := c]);
    } else if !IdShaped(b) {
      var f1 := fields[b := "content"];
      assert tail == [b, "content"] + ([c, b] + (["ts", ts] + []));
      PairParses(Field(b, "content"), [c, b] + (["ts", ts] + []), fields);
      PairParses(Field(c, b), ["ts", ts] + [], f1);
      PairParses(Field("ts", ts), [], f1[c := b]);
    }
  }

  /** However its two lines read, the relay takes the handoff for an entry with its id;
      that entry has a content field exactly when the second line of the reason is
      empty or happens to be the word itself. */
  lemma ContentReadExactly(row: Stored, id: string, cabinet: string, agent: string, slug: string,
                           a: string, b: string, ts: string)
    requires row == HandoffRow(id, cabinet, agent, slug, a + "\n" + b, ts)
    requires Clean(id) && IdShaped(id) && Clean(cabinet) && Clean(agent) && Clean(slug) && Clean(ts)
    requires Clean(a) && a != "" && Clean(b)
    ensures Read(Text([row])) != [] && Read(Text([row]))[0].id == id
    ensures "content" in Read(Text([row]))[0].fields <==> b == "" || b == "content"
  {
    var c, head := HandoffContent(slug, a), Head(cabinet, agent, slug) + [Field("reason", a)];
    PrintsShifted(row, id, cabinet, agent, slug, a, b, ts);
    var tail := [b, "content", c, b, "ts", ts];
    var lines := [id] + (PrintRow(head) + tail);
    ShiftedLines(id, cabinet, agent, slug, a, b, ts);
    EntryText(row, []);
    EntryText(Shifted(id, cabinet, agent, slug, a, b, ts), []);
    assert [row] + [] == [row];
    assert [Shifted(id, cabinet, agent, slug, a, b, ts)] + [] == [Shifted(id, cabinet, agent, slug, a, b, ts)];
    ContentIsClean(slug, a);
    HeadIsGood(cabinet, agent, slug);
    TailNamesAreGood();
    OnlyContentIsContent();
    SplitJoin(lines);
    CleanStripsToItself(lines);
    assert forall f | f in head :: Parseable(f) && f.name != "content";
    IdParses(id, PrintRow(head) + tail);
    RowParses(head, tail, map[]);
    OtherNameAbsent(head, map[], "content");
    TailParses(b, c, ts, FieldMap(head, map[]));
  }

  lemma ThreeFields(f: Field, g: Field, h: Field)
    ensures PrintRow([f, g, h]) == [f.name, f.value, g.name, g.value, h.name, h.value]
  {
    PrintRowAppend([f], [g, h]);
    PrintRowAppend([g], [h]);
    assert [f] + [g, h] == [f, g, h] && [g] + [h] == [g, h];
    assert forall x: Field :: PrintRow([x]) == [x.name, x.value] by {
      forall x: Field ensures PrintRow([x]) == [x.name, x.value] {
        assert [x][1..] == [];
      }
    }
  }

  lemma ShiftedLines(id: string, cabinet: string, agent: string, slug: string, a: string, b: string, ts: string)
    requires Clean(id) && Clean(cabinet) && Clean(agent) && Clean(slug) && Clean(ts) && Clean(a) && a != "" && Clean(b)
    ensures var head := Head(cabinet, agent, slug) + [Field("reason", a)];
            var lines := [id] + (PrintRow(head) + [b, "content", HandoffContent(slug, a), b, "ts", ts]);
            && Text([Shifted(id, cabinet, agent, slug, a, b, ts)]) == Join(lines)
            && forall l | l in lines :: Clean(l)
  {
    var e, head := Shifted(id, cabinet, agent, slug, a, b, ts), Head(cabinet, agent, slug) + [Field("reason", a)];
    var last := [Field(b, "content"), Field(HandoffContent(slug, a), b), Field("ts", ts)];
    assert e.row == head + last;
    PrintRowAppend(head, last);
    ThreeFields(last[0], last[1], last[2]);
    assert PrintEntries([e]) == [id] + (PrintRow(e.row) + []);
    assert PrintRow(e.row) + [] == PrintRow(e.row);
    PrintedHeadIsClean(cabinet, agent, slug, a);
    ContentIsClean(slug, a);
    TailNamesAreGood();
  }

  lemma PrintedHeadIsClean(cabinet: string, agent: string, slug: string, a: string)
    requires Clean(cabinet) && Clean(agent) && Clean(slug) && Clean(a)
    ensures forall l | l in PrintRow(Head(cabinet, agent, slug) + [Field("reason", a)]) :: Clean(l)
  {
    var head := Head(cabinet, agent, slug) + [Field("reason", a)];
    HeadIsGood(cabinet, agent, slug);
    TailNamesAreGood();
    assert forall f | f in head :: Clean(f.name) && Clean(f.value);
    PrintedRowIsClean(head);
  }

  ghost predicate TwoLine(row: Stored) {
    exists id, cabinet, agent, slug, a, b, ts :: TwoLineHandoff(row, id, cabinet, agent, slug, a, b, ts)
  }

  /** `alike` is a row of single trimmed lines that prints as the row does: the row
      itself, or for a two-line handoff the shifted one. */
  ghost predicate Alike(row: Stored, alike: Stored) {
    && alike.id == row.id && RowText(row.row) == RowText(alike.row) && WellFormed(alike) && CleanValues(alike)
    && (CleanValues(row) ==> alike == row)
    && (TwoLine(row) ==> forall f | f in alike.row :: f.name != "content")
  }

  lemma TwoLineIsNotClean(row: Stored)
    requires TwoLine(row)
    ensures !CleanValues(row)
  {
    var id, cabinet, agent, slug, a, b, ts :| TwoLineHandoff(row, id, cabinet, agent, slug, a, b, ts);
    var reason := row.row[4];
    assert reason in row.row && reason.value == a + "\n" + b;
    assert reason.value[|a|] == '\n' && IsBreak('\n');
  }

  lemma HasAlike(row: Stored) returns (alike: Stored)
    requires WellFormed(row) && (CleanValues(row) || TwoLine(row))
    ensures Alike(row, alike)
  {
    if CleanValues(row) {
      alike := row;
      if TwoLine(row) {
        TwoLineIsNotClean(row);
      }
    } else {
      var id, cabinet, agent, slug, a, b, ts :| TwoLineHandoff(row, id, cabinet, agent, slug, a, b, ts);
      alike := Shifted(id, cabinet, agent, slug, a, b, ts);
      PrintsShifted(row, id, cabinet, agent, slug, a, b, ts);
      ShiftedIsWellFormed(id, cabinet, agent, slug, a, b, ts);
    }
  }

  ghost predicate AllAlike(rows: seq<Stored>, alikes: seq<Stored>) {
    |rows| == |alikes| && forall k | 0 <= k < |rows| :: Alike(rows[k], alikes[k])
  }

  lemma {:induction false} TextAlike(rows: seq<Stored>) returns (alikes: seq<Stored>)
    requires forall row | row in rows :: WellFormed(row) && (CleanValues(row) || TwoLine(row))
    ensures AllAlike(rows, alikes) && Text(rows) == Text(alikes)
  {
    if rows == [] {
      alikes := [];
    } else {
      var first := HasAlike(rows[0]);
      var rest := TextAlike(rows[1..]);
      alikes := [first] + rest;
      EntryText(rows[0], rows[1..]);
      EntryText(first, rest);
      assert rows == [rows[0]] + rows[1..];
    }
  }

  /** Among rows of single trimmed lines, two-line handoffs are read in step with the
      rest, each as its shifted row. */
  lemma ReadsAlike(rows: seq<Stored>) returns (alikes: seq<Stored>)
    requires forall row | row in rows :: WellFormed(row) && (CleanValues(row) || TwoLine(row))
    ensures AllAlike(rows, alikes) && Read(Text(rows)) == Contents(alikes)
  {
    alikes := TextAlike(rows);
    assert forall e | e in alikes :: WellFormed(e) && CleanValues(e);
    CleanRoundTrip(alikes);
  }

  lemma ReadEntry(rows: seq<Stored>, entry: Entry) returns (row: Stored, alike: Stored)
    requires forall r | r in rows :: WellFormed(r) && (CleanValues(r) || TwoLine(r))
    requires entry in Read(Text(rows))
    ensures row in rows && Alike(row, alike) && entry == EntryOf(alike)
  {
    var alikes := ReadsAlike(rows);
    var k :| 0 <= k < |alikes| && Contents(alikes)[k] == entry;
    ContentsAt(alikes, k);
    row, alike := rows[k], alikes[k];
  }

  lemma ContentlessIsNotSent(link: Link, row: Stored, alike: Stored)
    requires Alike(row, alike) && TwoLine(row)
    ensures !Sendable(link, EntryOf(alike))
  {
    OtherNameAbsent(alike.row, map[], "content");
  }

  lemma SentIsClean(link: Link, q: set<Stored>, w: World, entry: Entry, row: Stored)
    requires Queueable(q) && (forall r | r in q :: CleanValues(r) || TwoLine(r))
    requires (forall r | r in w.queued :: r in q) && FromText(link, w.queued, entry) && Sendable(link, entry)
    requires row in q && row.id == entry.id
    ensures !TwoLine(row) && entry == EntryOf(row)
  {
    var rows :| Snapshot(link, w.queued, rows) && entry in Read(Text(rows));
    var r, alike := ReadEntry(rows, entry);
    assert r == row;
    if TwoLine(row) {
      ContentlessIsNotSent(link, row, alike);
    }
  }

  ghost predicate ReceivedId(w: World, id: string) {
    exists k | 0 <= k < |w.received| :: w.received[k].0.id == id
  }

  /** An entry with a row's id is that row's own content, and no two-line handoff's. */
  ghost predicate OwnContent(q: set<Stored>, entry: Entry) {
    forall row | row in q && row.id == entry.id :: !TwoLine(row) && entry == EntryOf(row)
  }

  lemma SentIsOwn(link: Link, q: set<Stored>, w: World)
    requires Queueable(q) && (forall row | row in q :: CleanValues(row) || TwoLine(row)) && Possible(link, q, w)
    ensures forall k | 0 <= k < |w.accepted| :: OwnContent(q, w.accepted[k].0)
    ensures forall k | 0 <= k < |w.received| :: OwnContent(q, w.received[k].0)
  {
    var origin := PossibleInv(link, q, w);
    forall entry | entry in origin && Sendable(link, entry) ensures OwnContent(q, entry) {
      forall row | row in q && row.id == entry.id ensures !TwoLine(row) && entry == EntryOf(row) {
        SentIsClean(link, q, w, entry, row);
      }
    }
  }

  /** In every run, whatever clean rows and other such handoffs are queued with it, a
      handoff whose reason has two lines stays in the outbox and the receiver never
      hears of it; and none of the clean rows around it is ever lost. */
  lemma TwoLineHandoffNeverArrives(link: Link, q: set<Stored>, w: World, row: Stored)
    requires Queueable(q) && (forall r | r in q :: CleanValues(r) || TwoLine(r)) && Possible(link, q, w)
    requires row in w.queued
    ensures TwoLine(row) ==> row in w.outbox && !AcceptedId(w, row.id) && !ReceivedId(w, row.id)
    ensures !Lost(w, row)
  {
    SentIsOwn(link, q, w);
    var origin := PossibleInv(link, q, w);
    if AcceptedId(w, row.id) {
      var k :| 0 <= k < |w.accepted| && w.accepted[k].0.id == row.id;
      assert OwnContent(q, w.accepted[k].0);
      assert Accepted(w, w.accepted[k].0);
    }
    if ReceivedId(w, row.id) {
      var k :| 0 <= k < |w.received| && w.received[k].0.id == row.id;
      assert OwnContent(q, w.received[k].0);
    }
  }

  // ----- a message that quotes the id of another row

  /** `quoting` holds a value with four lines: some text, the id of `other`, a field
      name and a value, as when part of a printed stream is pasted into a message. */
  ghost predicate Quotes(quoting: Stored, other: Stored, before: seq<Field>, text: string, said: string, after: seq<Field>) {
    && quoting.row == before + ([Field("content", text + "\n" + other.id + "\n" + "content" + "\n" + said)] + after)
    && (forall f | f in before :: GoodName(f.name) && Clean(f.value))
    && (forall f | f in after :: GoodName(f.name) && Clean(f.value))
    && Clean(text) && Clean(said) && said != ""
  }

  function QuotedEntry(other: Stored, said: string, after: seq<Field>): Stored {
    Stored(other.id, [Field("content", said)] + after)
  }

  lemma SplicedAt(name: string, text: string, id: string, said: string, rest: string)
    ensures name + "\n" + (text + "\n" + id + "\n" + name + "\n" + said) + "\n" + rest
            == (name + "\n" + text + "\n") + (id + "\n" + ((name + "\n" + said + "\n") + rest))
  {
  }

  lemma FieldWithin(id: string, before: seq<Field>, f: Field, after: seq<Field>, rest: seq<Stored>)
    ensures Text([Stored(id, before + ([f] + after))] + rest)
            == id + "\n" + (RowText(before) + ((f.name + "\n" + f.value + "\n") + (RowText(after) + Text(rest))))
  {
    RowTextAppend(before, [f] + after);
    RowTextAppend([f], after);
    FieldText(f);
    EntryText(Stored(id, before + ([f] + after)), rest);
    Regroup(RowText(before), f.name + "\n" + f.value + "\n", RowText(after), Text(rest));
  }

  lemma Regroup(a: string, b: string, c: string, d: string)
    ensures (a + (b + c)) + d == a + (b + (c + d))
  {
  }

  /** Such a message prints as two rows, the second bearing the quoted id. */
  lemma PrintsAsTwo(id: string, quoted: string, before: seq<Field>, name: string, text: string, said: string,
                    after: seq<Field>, rest: seq<Stored>)
    ensures Text([Stored(id, before + ([Field(name, text + "\n" + quoted + "\n" + name + "\n" + said)] + after))] + rest)
            == Text([Stored(id, before + [Field(name, text)])] + ([Stored(quoted, [Field(name, said)] + after)] + rest))
  {
    FieldWithin(id, before, Field(name, text + "\n" + quoted + "\n" + name + "\n" + said), after, rest);
    FieldWithin(id, before, Field(name, text), [], [Stored(quoted, [Field(name, said)] + after)] + rest);
    assert [Field(name, text)] + [] == [Field(name, text)];
    FieldWithin(quoted, [], Field(name, said), after, rest);
    assert [] + ([Field(name, said)] + after) == [Field(name, said)] + after;
    assert RowText([]) == "";
    SplicedAt(name, text, quoted, said, RowText(after) + Text(rest));
    Rejoin(id, RowText(before), name + "\n" + (text + "\n" + quoted + "\n" + name + "\n" + said) + "\n",
           RowText(after) + Text(rest));
  }

  lemma Rejoin(id: string, a: string, b: string, c: string)
    ensures id + "\n" + (a + (b + c)) == id + "\n" + (a + b + c)
  {
  }

  lemma ReadsTheQuote(quoting: Stored, other: Stored, before: seq<Field>, text: string, said: string, after: seq<Field>)
    requires Clean(quoting.id) && IdShaped(quoting.id) && WellFormed(other) && CleanValues(other)
    requires Quotes(quoting, other, before, text, said, after)
    ensures Read(Text([quoting, other]))
            == [Entry(quoting.id, FieldMap(before + [Field("content", text)], map[])),
                EntryOf(QuotedEntry(other, said, after)), EntryOf(other)]
  {
    var first, second := Stored(quoting.id, before + [Field("content", text)]), QuotedEntry(other, said, after);
    PrintsAsTwo(quoting.id, other.id, before, "content", text, said, after, [other]);
    assert quoting == Stored(quoting.id, quoting.row);
    assert [quoting] + [other] == [quoting, other];
    assert [first] + ([second] + [other]) == [first, second, other];
    TailNamesAreGood();
    CleanRoundTrip([first, second, other]);
    ContentsAt([first, second, other], 0);
    ContentsAt([first, second, other], 1);
    ContentsAt([first, second, other], 2);
  }

  /** The guarantee fails for such a message: some run over the two rows delivers the
      quotation under the quoted row's id and then deletes that row, which was never
      accepted. */
  lemma QuotedRowCanBeLost(link: Link, quoting: Stored, other: Stored, before: seq<Field>, text: string, said: string,
                           after: seq<Field>) returns (w: World)
    requires link.peerId != "" && link.batch >= 2
    requires Clean(quoting.id) && IdShaped(quoting.id) && quoting.id != other.id && DistinctNames(quoting.row)
    requires WellFormed(other) && CleanValues(other) && DistinctNames(other.row)
    requires Quotes(quoting, other, before, text, said, after)
    requires forall f | f in after :: f.name !in {"content", "from_agent"}
    requires EntryOf(other) != EntryOf(QuotedEntry(other, said, after))
    ensures Possible(link, {quoting, other}, w) && Lost(w, other)
  {
    QuotingIsWellFormed(quoting, other, before, text, said, after);
    ReadsTheQuote(quoting, other, before, text, said, after);
    QuoteIsSendable(link, other, said, after);
    assert Read(Text([quoting, other]))[1] == EntryOf(QuotedEntry(other, said, after));
    assert Misread(link, {quoting, other}, [quoting, other], EntryOf(QuotedEntry(other, said, after)), other);
    w := MisreadLoses(link, {quoting, other}, [quoting, other], EntryOf(QuotedEntry(other, said, after)), other);
  }

  lemma QuotingIsWellFormed(quoting: Stored, other: Stored, before: seq<Field>, text: string, said: string, after: seq<Field>)
    requires Clean(quoting.id) && IdShaped(quoting.id) && Quotes(quoting, other, before, text, said, after)
    ensures WellFormed(quoting)
  {
    TailNamesAreGood();
  }

  lemma QuoteIsSendable(link: Link, other: Stored, said: string, after: seq<Field>)
    requires link.peerId != "" && said != ""
    requires forall f | f in after :: f.name !in {"content", "from_agent"}
    ensures Sendable(link, EntryOf(QuotedEntry(other, said, after)))
  {
    var row := QuotedEntry(other, said, after).row;
    assert row[1..] == after && "content" != "from_agent" by {
      assert "content"[0] == 'c' && "from_agent"[0] == 'f';
    }
    FieldMapKeeps(after, map["content" := said], "content");
    OtherNameAbsent(row, map[], "from_agent");
  }
}
