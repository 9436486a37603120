/** The state `Home` keeps, the board it renders from that state
    (src/Home/Home.jsx:98), and the drag-and-drop transitions
    (src/Home/Home.jsx:89-96, 170-175, 201-203). */
module Kanban {
  import opened Seqs
  import opened Sorting
  import opened Tickets
  import opened Ordering
  import opened Grouping
  import opened Preferences

  /** The `useState` values of `Home` that the board depends on. */
  datatype State = State(
    tickets: seq<Ticket>,
    users: seq<User>,
    grouping: string,
    ordering: string,
    dragged: Option<Ticket>)

  /** The state on mount, before the fetch fills in tickets and users. */
  function Initial(storedGrouping: Option<string>, storedOrdering: Option<string>): (st: State)
    ensures st.tickets == [] && st.users == [] && st.dragged == None
    ensures st.grouping == InitialGrouping(storedGrouping)
    ensures st.ordering == InitialOrdering(storedOrdering)
    ensures storedGrouping.None? ==> st.grouping == "Status"
    ensures storedOrdering.None? ==> st.ordering == "Priority"
  {
    State([], [], InitialGrouping(storedGrouping), InitialOrdering(storedOrdering), None)
  }

  /** `groupTickets(sortTickets(tickets))`: sort the whole list first, then
      group it, so every column lists its tickets in sorted order. */
  function Render(st: State, collate: Collation): (b: Board)
    ensures forall c :: c in b ==> IsSubseq(c.cards, SortTickets(st.ordering, st.tickets, collate))
  {
    GroupTickets(st.grouping, SortTickets(st.ordering, st.tickets, collate), st.users)
  }

  /** What a render leaves in the state: `tickets.sort(...)` sorts the
      `useState` array in place, so the next event, and the next render,
      starts from the list in the order this render drew it. */
  function AfterRender(st: State, collate: Collation): (st': State)
    ensures multiset(st'.tickets) == multiset(st.tickets)
    ensures st'.(tickets := st.tickets) == st
  {
    st.(tickets := SortTickets(st.ordering, st.tickets, collate))
  }

  /** Under an unchanged ordering the write-back is invisible: rendering
      again draws the same board and leaves the same state. */
  lemma RenderAgainSameBoard(st: State, collate: Collation)
    requires st.ordering != "Title" || TotalPreorder(collate)
    ensures Render(AfterRender(st, collate), collate) == Render(st, collate)
    ensures AfterRender(AfterRender(st, collate), collate) == AfterRender(st, collate)
  {
    SortTicketsIdempotent(st.ordering, st.tickets, collate);
  }

  /** The grouping dropdown's `onChange`. */
  function SelectGrouping(st: State, grouping: string): (st': State)
    ensures st'.grouping == grouping
    ensures st'.(grouping := st.grouping) == st
  {
    st.(grouping := grouping)
  }

  /** The ordering dropdown's `onChange`. */
  function SelectOrdering(st: State, ordering: string): (st': State)
    ensures st'.ordering == ordering
    ensures st'.(ordering := st.ordering) == st
  {
    st.(ordering := ordering)
  }

  /** `ticket.id === ticketId ? { ...ticket, status: newStatus } : ticket` */
  function Restatus(ticketId: string, newStatus: string): Ticket -> Ticket
  {
    (t: Ticket) => if t.id == ticketId then t.(status := newStatus) else t
  }

  /** The map callback changes no field but `status`, and changes that
      only for the ticket carrying `ticketId`. */
  lemma RestatusChangesOnlyStatus(ticketId: string, newStatus: string, t: Ticket)
    ensures SameButStatus(Restatus(ticketId, newStatus)(t), t)
    ensures Restatus(ticketId, newStatus)(t).status == if t.id == ticketId then newStatus else t.status
  {
  }

  /** `prevTickets.map(...)` in `Home.handleDrop`: the same tickets in the
      same order, with the status of each one carrying `ticketId` replaced
      and every other field, and every other ticket, left alone. */
  function SetStatus(ts: seq<Ticket>, ticketId: string, newStatus: string): (r: seq<Ticket>)
    ensures |r| == |ts|
    ensures forall i :: 0 <= i < |ts| ==> SameButStatus(r[i], ts[i])
    ensures forall i :: 0 <= i < |ts| && ts[i].id == ticketId ==> r[i].status == newStatus
    ensures forall i :: 0 <= i < |ts| && ts[i].id != ticketId ==> r[i] == ts[i]
  {
    MapSeq(ts, Restatus(ticketId, newStatus))
  }

  /** `Home.handleDrop(newStatus, ticketId)`. */
  function HandleDrop(st: State, newStatus: string, ticketId: string): (st': State)
    ensures st'.dragged == None
    ensures st'.tickets == SetStatus(st.tickets, ticketId, newStatus)
    ensures st'.users == st.users && st'.grouping == st.grouping && st'.ordering == st.ordering
  {
    st.(tickets := SetStatus(st.tickets, ticketId, newStatus), dragged := None)
  }

  /** `KanbanCard.handleDragStart` for the card showing `t`. */
  function DragStart(st: State, t: Ticket): (st': State)
    ensures st'.dragged == Some(t)
    ensures st'.(dragged := st.dragged) == st
  {
    st.(dragged := Some(t))
  }

  /** `KanbanColumn.handleDrop` on the column titled `title`: nothing
      happens unless a ticket is being dragged; otherwise the column title
      becomes the dragged ticket's new status. */
  function ColumnDrop(st: State, title: string): (st': State)
    ensures st.dragged == None ==> st' == st
    ensures st.dragged.Some? ==> st' == HandleDrop(st, title, st.dragged.value.id)
  {
    match st.dragged
    case None => st
    case Some(d) => HandleDrop(st, title, d.id)
  }

  // ---------------------------------------------------------------------
  // The drop as a status update.

  /** Dropping twice in a row writes what the second drop writes. */
  lemma SetStatusLastWriteWins(ts: seq<Ticket>, ticketId: string, first: string, second: string)
    ensures SetStatus(SetStatus(ts, ticketId, first), ticketId, second) == SetStatus(ts, ticketId, second)
  {
    var m := SetStatus(ts, ticketId, first);
    var a := SetStatus(m, ticketId, second);
    var b := SetStatus(ts, ticketId, second);
    forall i | 0 <= i < |ts|
      ensures a[i] == b[i]
    {
      assert SameButStatus(m[i], ts[i]) && SameButStatus(a[i], m[i]) && SameButStatus(b[i], ts[i]);
      assert m[i].id == ts[i].id;
    }
  }

  /** Dropping a ticket on the column it already has as status changes
      nothing. */
  lemma SetStatusUnchanged(ts: seq<Ticket>, ticketId: string, newStatus: string)
    requires forall t :: t in ts && t.id == ticketId ==> t.status == newStatus
    ensures SetStatus(ts, ticketId, newStatus) == ts
  {
    var r := SetStatus(ts, ticketId, newStatus);
    forall i | 0 <= i < |ts|
      ensures r[i] == ts[i]
    {
      assert ts[i] in ts;
    }
  }

  /** A drop keeps the list of ticket ids, in order. */
  lemma SetStatusKeepsIds(ts: seq<Ticket>, ticketId: string, newStatus: string)
    ensures MapSeq(SetStatus(ts, ticketId, newStatus), IdOf) == MapSeq(ts, IdOf)
  {
  }

  /** A drag starts on a card, a drop follows: the ticket's status becomes
      the column title, and the drag is over. */
  lemma DragThenDrop(st: State, t: Ticket, title: string)
    ensures ColumnDrop(DragStart(st, t), title).tickets == SetStatus(st.tickets, t.id, title)
    ensures ColumnDrop(DragStart(st, t), title).dragged == None
  {
  }

  /** After a drop nothing is being dragged, so a further drop, on any
      column, is ignored until the next drag starts. */
  lemma SecondDropIgnored(st: State, first: string, second: string)
    ensures ColumnDrop(ColumnDrop(st, first), second) == ColumnDrop(st, first)
  {
  }

  // ---------------------------------------------------------------------
  // Where the dropped ticket lands under Status grouping.

  /** After a drop, every ticket carrying the dropped id has the new
      status. */
  lemma SetStatusWrites(ts: seq<Ticket>, ticketId: string, newStatus: string)
    ensures forall t :: t in SetStatus(ts, ticketId, newStatus) && t.id == ticketId ==> t.status == newStatus
  {
    var r := SetStatus(ts, ticketId, newStatus);
    forall t | t in r && t.id == ticketId
      ensures t.status == newStatus
    {
      var k :| 0 <= k < |r| && r[k] == t;
      assert SameButStatus(r[k], ts[k]);
    }
  }

  /** Sorting neither adds nor loses a ticket. */
  lemma SortTicketsMembers(ordering: string, ts: seq<Ticket>, collate: Collation)
    ensures forall t :: t in SortTickets(ordering, ts, collate) <==> t in ts
  {
    var r := SortTickets(ordering, ts, collate);
    forall t
      ensures t in r <==> t in ts
    {
      assert t in r <==> t in multiset(r);
      assert t in ts <==> t in multiset(ts);
    }
  }

  /** Under Status grouping, after a drop that wrote the status literal a
      status column matches, every ticket carrying the dropped id is in
      that column and in no other. */
  lemma DroppedLandsInColumn(st: State, collate: Collation, ticketId: string, i: nat)
    requires st.grouping != "User" && st.grouping != "Priority"
    requires i < 5
    ensures forall t :: t in HandleDrop(st, StatusLiterals[i], ticketId).tickets && t.id == ticketId ==>
              t in Render(HandleDrop(st, StatusLiterals[i], ticketId), collate)[i].cards
              && InExactlyOneColumn(Render(HandleDrop(st, StatusLiterals[i], ticketId), collate), t)
  {
    var st' := HandleDrop(st, StatusLiterals[i], ticketId);
    var sorted := SortTickets(st'.ordering, st'.tickets, collate);
    assert Render(st', collate) == GroupByStatus(sorted);
    SetStatusWrites(st.tickets, ticketId, StatusLiterals[i]);
    SortTicketsMembers(st'.ordering, st'.tickets, collate);
    StatusColumnAt(sorted, i);
    StatusColumnsPlacement(sorted);
  }

  /** Under Status grouping, a ticket whose status is a column's key is
      still shown in that column after it is dropped there, for every
      column except InProgress. */
  lemma DropOntoMatchingColumn(st: State, collate: Collation, title: string)
    requires st.grouping != "User" && st.grouping != "Priority"
    requires st.dragged.Some?
    requires title in ["Backlog", "Todo", "Done", "Canceled"]
    ensures forall t :: t in ColumnDrop(st, title).tickets && t.id == st.dragged.value.id ==>
              && (exists i :: 0 <= i < 5 && StatusKeys[i] == title && t in Render(ColumnDrop(st, title), collate)[i].cards)
              && InExactlyOneColumn(Render(ColumnDrop(st, title), collate), t)
  {
    var i := if title == "Backlog" then 0 else if title == "Todo" then 1 else if title == "Done" then 3 else 4;
    assert StatusLiterals[i] == title && StatusKeys[i] == title;
    DroppedLandsInColumn(st, collate, st.dragged.value.id, i);
  }

  /** The InProgress column writes the status "InProgress", which no status
      column matches: after the drop, no card on the board carries the
      dropped ticket's id. */
  lemma DropOntoInProgressHidesTicket(st: State, collate: Collation)
    requires st.grouping != "User" && st.grouping != "Priority"
    requires st.dragged.Some?
    ensures forall i, c :: 0 <= i < |Render(ColumnDrop(st, "InProgress"), collate)|
                           && c in Render(ColumnDrop(st, "InProgress"), collate)[i].cards
                           ==> c.id != st.dragged.value.id
  {
    var d := st.dragged.value;
    var sorted := SortTickets(st.ordering, SetStatus(st.tickets, d.id, "InProgress"), collate);
    assert Render(ColumnDrop(st, "InProgress"), collate) == GroupByStatus(sorted);
    assert "InProgress" !in StatusLiterals;
    UnmatchedStatusHidden(st.ordering, st.tickets, collate, d.id, "InProgress");
  }

  /** A status write that no status column matches takes every ticket with
      that id off the status board. */
  lemma UnmatchedStatusHidden(ordering: string, ts: seq<Ticket>, collate: Collation, ticketId: string, status: string)
    requires status !in StatusLiterals
    ensures forall i, c :: 0 <= i < |GroupByStatus(SortTickets(ordering, SetStatus(ts, ticketId, status), collate))|
                           && c in GroupByStatus(SortTickets(ordering, SetStatus(ts, ticketId, status), collate))[i].cards
                           ==> c.id != ticketId
  {
    var written := SetStatus(ts, ticketId, status);
    var sorted := SortTickets(ordering, written, collate);
    SetStatusWrites(ts, ticketId, status);
    SortTicketsMembers(ordering, written, collate);
    StatusBoardShowsLiteralsOnly(sorted);
  }

  // ---------------------------------------------------------------------
  // The drop with the InProgress column mapped to its status literal.

  /** The status literal the Status board's column `title` matches; a title
      that is not a status column key is written unchanged. */
  function StatusForColumn(title: string): (status: string)
    ensures forall i :: 0 <= i < 5 && title == StatusKeys[i] ==> status == StatusLiterals[i]
    ensures title !in StatusKeys ==> status == title
  {
    if title == "InProgress" then "In progress" else title
  }

  /** `KanbanColumn.handleDrop` writing the status the target column
      matches rather than the column's key. */
  function ColumnDropCorrected(st: State, title: string): (st': State)
    ensures st.dragged == None ==> st' == st
    ensures st.dragged.Some? ==> st' == HandleDrop(st, StatusForColumn(title), st.dragged.value.id)
  {
    match st.dragged
    case None => st
    case Some(d) => HandleDrop(st, StatusForColumn(title), d.id)
  }

  /** With the corrected drop, under Status grouping, a ticket dropped on
      any of the five columns is shown in that column and in no other. */
  lemma CorrectedDropLandsInColumn(st: State, collate: Collation, i: nat)
    requires st.grouping != "User" && st.grouping != "Priority"
    requires st.dragged.Some?
    requires i < 5
    ensures forall t :: t in ColumnDropCorrected(st, StatusKeys[i]).tickets && t.id == st.dragged.value.id ==>
              t in Render(ColumnDropCorrected(st, StatusKeys[i]), collate)[i].cards
              && InExactlyOneColumn(Render(ColumnDropCorrected(st, StatusKeys[i]), collate), t)
  {
    assert StatusForColumn(StatusKeys[i]) == StatusLiterals[i];
    DroppedLandsInColumn(st, collate, st.dragged.value.id, i);
  }

  // ---------------------------------------------------------------------
  // A drop under User or Priority grouping.

  /** Every column with `f` applied to each of its cards. */
  function MapColumns(b: Board, f: Ticket -> Ticket): (r: Board)
    ensures |r| == |b|
    ensures forall i :: 0 <= i < |b| ==> r[i] == Column(b[i].key, MapSeq(b[i].cards, f))
  {
    if |b| == 0 then [] else [Column(b[0].key, MapSeq(b[0].cards, f))] + MapColumns(b[1..], f)
  }

  lemma PartitionMap<K>(ts: seq<Ticket>, key: Ticket -> K, table: seq<(string, K)>, f: Ticket -> Ticket)
    requires forall t :: key(f(t)) == key(t)
    ensures Partition(MapSeq(ts, f), key, table) == MapColumns(Partition(ts, key, table), f)
  {
    forall i | 0 <= i < |table|
      ensures Filter(MapSeq(ts, f), KeyIs(key, table[i].1)) == MapSeq(Filter(ts, KeyIs(key, table[i].1)), f)
    {
      var p := KeyIs(key, table[i].1);
      forall x
        ensures p(f(x)) == p(x)
      {
        assert key(f(x)) == key(x);
      }
      FilterMap(ts, f, p);
    }
  }

  lemma {:induction false} PutMap(b: Board, k: string, v: seq<Ticket>, f: Ticket -> Ticket)
    ensures Put(MapColumns(b, f), k, MapSeq(v, f)) == MapColumns(Put(b, k, v), f)
  {
    if |b| > 0 {
      var mb := MapColumns(b, f);
      assert mb[0].key == b[0].key && mb[1..] == MapColumns(b[1..], f);
      if b[0].key != k {
        PutMap(b[1..], k, v, f);
        assert Put(b, k, v)[1..] == Put(b[1..], k, v);
      }
    }
  }

  lemma {:induction false} GroupByUserMap(ts: seq<Ticket>, users: seq<User>, f: Ticket -> Ticket)
    requires forall t :: f(t).userId == t.userId
    decreases |users|
    ensures GroupByUser(MapSeq(ts, f), users) == MapColumns(GroupByUser(ts, users), f)
  {
    if |users| > 0 {
      var n := |users| - 1;
      GroupByUserMap(ts, users[..n], f);
      var p := KeyIs(UserIdOf, users[n].id);
      forall x
        ensures p(f(x)) == p(x)
      {
        assert UserIdOf(f(x)) == UserIdOf(x);
      }
      FilterMap(ts, f, p);
      PutMap(GroupByUser(ts, users[..n]), users[n].name, Filter(ts, p), f);
    }
  }

  lemma SortTicketsMap(ordering: string, ts: seq<Ticket>, collate: Collation, f: Ticket -> Ticket)
    requires forall t :: f(t).priority == t.priority && f(t).title == t.title
    ensures SortTickets(ordering, MapSeq(ts, f), collate) == MapSeq(SortTickets(ordering, ts, collate), f)
  {
    var le := Comparator(ordering, collate);
    forall a, b
      ensures le(f(a), f(b)) == le(a, b)
    {
      assert f(a).priority == a.priority && f(a).title == a.title;
      assert f(b).priority == b.priority && f(b).title == b.title;
    }
    SortByMap(ts, f, le);
  }

  /** Under User or Priority grouping a drop moves no card: every column
      keeps the same cards in the same places, and only the dropped
      ticket's status is overwritten, with a user name or a priority label
      that is not a status. */
  lemma DropUnderOtherGroupingMovesNoCard(st: State, collate: Collation, title: string)
    requires st.grouping == "User" || st.grouping == "Priority"
    requires st.dragged.Some?
    ensures Render(ColumnDrop(st, title), collate)
         == MapColumns(Render(st, collate), Restatus(st.dragged.value.id, title))
  {
    var f := Restatus(st.dragged.value.id, title);
    forall t
      ensures f(t).priority == t.priority && f(t).title == t.title && f(t).userId == t.userId
      ensures PriorityOf(f(t)) == PriorityOf(t)
    {
    }
    SortTicketsMap(st.ordering, st.tickets, collate, f);
    var sorted := SortTickets(st.ordering, st.tickets, collate);
    if st.grouping == "User" {
      GroupByUserMap(sorted, st.users, f);
    } else {
      PartitionMap(sorted, PriorityOf, PriorityTable, f);
    }
  }
}
