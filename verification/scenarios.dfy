/** Concrete boards: the Todo column in priority order, a drag from Todo
    to Done, Alice's user column, ties that keep the order an earlier
    title sort left, and the one drop that loses a card. */
module Scenarios {
  import opened Seqs
  import opened Sorting
  import opened Tickets
  import opened Ordering
  import opened Grouping
  import opened Kanban

  function T1(): Ticket { Ticket("1", "B", "Todo", 4, "", "u1") }

  function T2(): Ticket { Ticket("2", "A", "Todo", 2, "", "unknown") }

  /** Status grouping under priority ordering: the Todo column shows the
      priority-4 ticket before the priority-2 one, whichever order the
      endpoint sent them in. */
  lemma PriorityOrderedTodoColumn(collate: Collation)
    ensures Render(State([T1(), T2()], [], "Status", "Priority", None), collate)[1]
         == Column("Todo", [T1(), T2()])
    ensures Render(State([T2(), T1()], [], "Status", "Priority", None), collate)[1]
         == Column("Todo", [T1(), T2()])
  {
    PairSorted(collate);
    var st1 := State([T1(), T2()], [], "Status", "Priority", None);
    var st2 := State([T2(), T1()], [], "Status", "Priority", None);
    assert Render(st1, collate) == GroupByStatus([T1(), T2()]);
    assert Render(st2, collate) == GroupByStatus([T1(), T2()]);
    TodoColumn();
  }

  lemma TodoColumn()
    ensures GroupByStatus([T1(), T2()])[1] == Column("Todo", [T1(), T2()])
  {
    TodoPair(T1(), T2());
    assert GroupByStatus([T1(), T2()])[1].key == "Todo";
  }

  /** Both input orders of the two tickets sort to priority 4 first. */
  lemma PairSorted(collate: Collation)
    ensures SortTickets("Priority", [T1(), T2()], collate) == [T1(), T2()]
    ensures SortTickets("Priority", [T2(), T1()], collate) == [T1(), T2()]
  {
    var le := Comparator("Priority", collate);
    assert [T1(), T2()][1..] == [T2()] && [T2()][1..] == [];
    assert [T2(), T1()][1..] == [T1()] && [T1()][1..] == [];
    assert SortBy([T2()], le) == [T2()];
    assert SortBy([T1()], le) == [T1()];
    assert Insert(T2(), [T1()], le) == [T1()] + Insert(T2(), [], le);
  }

  /** Dragging ticket 1 out of Todo and dropping it on Done sets its
      status to "Done" and touches nothing else. */
  lemma DragTodoToDone()
    ensures ColumnDrop(DragStart(State([T1(), T2()], [], "Status", "Priority", None), T1()), "Done").tickets
         == [T1().(status := "Done"), T2()]
  {
  }

  /** User grouping: Alice's column holds her one ticket; the ticket whose
      user is unknown is in no column. */
  lemma AliceColumn()
    ensures GroupByUser([T1(), T2()], [User("u1", "Alice")]) == [Column("Alice", [T1()])]
  {
    var p := KeyIs(UserIdOf, "u1");
    var key: Ticket -> string := UserIdOf;
    assert key(T1()) == "u1" && key(T2()) == "unknown";
    assert p(T1()) && !p(T2());
    assert Filter([], p) == [];
    FilterCons(T2(), [], p);
    assert [T2()] + [] == [T2()];
    FilterCons(T1(), [T2()], p);
    assert [T1()] + [T2()] == [T1(), T2()];
    assert Filter([T1(), T2()], p) == [T1()];
    assert [User("u1", "Alice")][..0] == [];
  }

  /** A Todo ticket dropped on the InProgress column: before the drop it
      is the Todo column's one card; after it the ticket list still holds
      it, with status "InProgress", but no column draws it. */
  lemma InProgressDropLosesCard(collate: Collation)
    ensures Render(State([T1()], [], "Status", "Priority", Some(T1())), collate)[1].cards == [T1()]
    ensures ColumnDrop(State([T1()], [], "Status", "Priority", Some(T1())), "InProgress").tickets
         == [T1().(status := "InProgress")]
    ensures Missing(Render(ColumnDrop(State([T1()], [], "Status", "Priority", Some(T1())), "InProgress"), collate),
                    T1().(status := "InProgress"))
  {
    var st := State([T1()], [], "Status", "Priority", Some(T1()));
    var le := Comparator("Priority", collate);
    assert [T1()][1..] == [];
    assert SortBy([T1()], le) == [T1()];
    var p := KeyIs(StatusOf, "Todo");
    var key: Ticket -> string := StatusOf;
    assert key(T1()) == "Todo" && p(T1());
    assert Filter([], p) == [];
    FilterCons(T1(), [], p);
    assert [T1()] + [] == [T1()];
    assert Render(st, collate)[1].cards == Filter([T1()], p);
    DropOntoInProgressHidesTicket(st, collate);
  }

  function TA(): Ticket { Ticket("1", "b", "Todo", 1, "", "") }

  function TB(): Ticket { Ticket("2", "a", "Todo", 1, "", "") }

  /** Two tickets of equal priority, rendered once by title and then
      switched to priority ordering, are drawn in the order the title sort
      left in the state; rendering the original list by priority draws
      them the other way round. */
  lemma TiesKeepPreviousOrder(collate: Collation)
    requires collate("a", "b") && !collate("b", "a")
    ensures var st := State([TA(), TB()], [], "Status", "Title", None);
            Render(SelectOrdering(AfterRender(st, collate), "Priority"), collate)[1].cards == [TB(), TA()]
    ensures Render(State([TA(), TB()], [], "Status", "Priority", None), collate)[1].cards == [TA(), TB()]
  {
    var st := State([TA(), TB()], [], "Status", "Title", None);
    TiesSorted(collate);
    assert AfterRender(st, collate).tickets == [TB(), TA()];
    var st' := SelectOrdering(AfterRender(st, collate), "Priority");
    assert st' == State([TB(), TA()], [], "Status", "Priority", None);
    assert Render(st', collate) == GroupByStatus([TB(), TA()]);
    assert Render(State([TA(), TB()], [], "Status", "Priority", None), collate) == GroupByStatus([TA(), TB()]);
    TodoPair(TB(), TA());
    TodoPair(TA(), TB());
  }

  lemma TiesSorted(collate: Collation)
    requires collate("a", "b") && !collate("b", "a")
    ensures SortTickets("Title", [TA(), TB()], collate) == [TB(), TA()]
    ensures SortTickets("Priority", [TB(), TA()], collate) == [TB(), TA()]
    ensures SortTickets("Priority", [TA(), TB()], collate) == [TA(), TB()]
  {
    var title := Comparator("Title", collate);
    var prio := Comparator("Priority", collate);
    assert [TA(), TB()][1..] == [TB()] && [TB(), TA()][1..] == [TA()];
    assert [TA()][1..] == [] && [TB()][1..] == [];
    assert SortBy([TB()], title) == [TB()];
    assert !title(TA(), TB());
    assert Insert(TA(), [TB()], title) == [TB()] + Insert(TA(), [], title);
    assert SortBy([TA()], prio) == [TA()];
    assert SortBy([TB()], prio) == [TB()];
  }

  /** Two Todo tickets fill the Todo column in the order given. */
  lemma TodoPair(x: Ticket, y: Ticket)
    requires x.status == "Todo" && y.status == "Todo"
    ensures GroupByStatus([x, y])[1].cards == [x, y]
  {
    var p := KeyIs(StatusOf, "Todo");
    var key: Ticket -> string := StatusOf;
    assert key(x) == "Todo" && key(y) == "Todo";
    assert p(x) && p(y);
    assert Filter([], p) == [];
    FilterCons(y, [], p);
    assert [y] + [] == [y];
    FilterCons(x, [y], p);
    assert [x] + [y] == [x, y];
    assert GroupByStatus([x, y])[1].cards == Filter([x, y], p);
  }
}
