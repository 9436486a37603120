/** `groupTickets` and its three partitioners (src/Home/Home.jsx:36-87).

    Each partitioner returns a plain JavaScript object from column key to
    ticket array; the board draws one column per key in the object's key
    order. A `Board` is that object as the sequence of its entries in
    iteration order. Keys are taken to be non-numeric strings, for which
    iteration order is insertion order. */
module Grouping {
  import opened Seqs
  import opened Tickets

  /** One entry of the grouped object: a column key and its tickets. */
  datatype Column = Column(key: string, cards: seq<Ticket>)

  type Board = seq<Column>

  function Keys(b: Board): (ks: seq<string>)
    ensures |ks| == |b|
    ensures forall i :: 0 <= i < |b| ==> ks[i] == b[i].key
  {
    if |b| == 0 then [] else [b[0].key] + Keys(b[1..])
  }

  /** `obj[k]`: the value stored under key `k`, if any. */
  function Lookup(b: Board, k: string): Option<seq<Ticket>>
  {
    if |b| == 0 then None
    else if b[0].key == k then Some(b[0].cards)
    else Lookup(b[1..], k)
  }

  /** Every card of the board, column after column. */
  function Flatten(b: Board): seq<Ticket>
  {
    if |b| == 0 then [] else b[0].cards + Flatten(b[1..])
  }

  /** `t` is drawn in exactly one column. */
  ghost predicate InExactlyOneColumn(b: Board, t: Ticket)
  {
    exists i :: 0 <= i < |b| && t in b[i].cards
                && forall j :: 0 <= j < |b| && j != i ==> t !in b[j].cards
  }

  /** `t` is drawn in no column. */
  ghost predicate Missing(b: Board, t: Ticket)
  {
    forall i :: 0 <= i < |b| ==> t !in b[i].cards
  }

  /** Every column lists some of the input tickets, in input order. */
  ghost predicate ColumnsFollowInput(b: Board, ts: seq<Ticket>)
  {
    forall c :: c in b ==> IsSubseq(c.cards, ts)
  }

  // ---------------------------------------------------------------------
  // Fixed-key partitions: groupByStatus and groupByPriority.

  /** The object literal `{ label: ts.filter(t => key(t) === value), ... }`
      with one entry per row of `table`, in table order. */
  function Partition<K(==)>(ts: seq<Ticket>, key: Ticket -> K, table: seq<(string, K)>): (b: Board)
    ensures |b| == |table|
    ensures forall i :: 0 <= i < |b| ==> b[i] == Column(table[i].0, Filter(ts, KeyIs(key, table[i].1)))
  {
    if |table| == 0 then []
    else [Column(table[0].0, Filter(ts, KeyIs(key, table[0].1)))] + Partition(ts, key, table[1..])
  }

  function Values<K>(table: seq<(string, K)>): (vs: seq<K>)
    ensures |vs| == |table|
    ensures forall i :: 0 <= i < |table| ==> vs[i] == table[i].1
  {
    if |table| == 0 then [] else [table[0].1] + Values(table[1..])
  }

  /** Each ticket appears as often across the columns as in the input when
      its key is one of the table's values, and not at all otherwise. */
  lemma {:induction false} PartitionCount<K>(ts: seq<Ticket>, key: Ticket -> K, table: seq<(string, K)>)
    requires NoDup(Values(table))
    ensures forall t :: multiset(Flatten(Partition(ts, key, table)))[t]
                     == if key(t) in Values(table) then multiset(ts)[t] else 0
  {
    if |table| > 0 {
      var b := Partition(ts, key, table);
      var first := Filter(ts, KeyIs(key, table[0].1));
      assert b[1..] == Partition(ts, key, table[1..]);
      assert Values(table) == [table[0].1] + Values(table[1..]);
      assert table[0].1 !in Values(table[1..]) by {
        forall j | 0 <= j < |Values(table[1..])|
          ensures Values(table[1..])[j] != table[0].1
        {
          assert Values(table[1..])[j] == Values(table)[j + 1];
        }
      }
      assert NoDup(Values(table[1..])) by {
        forall i, j | 0 <= i < j < |Values(table[1..])|
          ensures Values(table[1..])[i] != Values(table[1..])[j]
        {
          assert Values(table[1..])[i] == Values(table)[i + 1];
          assert Values(table[1..])[j] == Values(table)[j + 1];
        }
      }
      PartitionCount(ts, key, table[1..]);
      FilterCount(ts, KeyIs(key, table[0].1));
      assert Flatten(b) == first + Flatten(b[1..]);
      forall t
        ensures multiset(Flatten(b))[t] == if key(t) in Values(table) then multiset(ts)[t] else 0
      {
        assert multiset(Flatten(b))[t] == multiset(first)[t] + multiset(Flatten(b[1..]))[t];
        assert KeyIs(key, table[0].1)(t) == (key(t) == table[0].1);
      }
    }
  }

  /** When every input key is one of the table's values, the columns hold
      the input exactly: each ticket as often as it occurs. */
  lemma PartitionCovers<K>(ts: seq<Ticket>, key: Ticket -> K, table: seq<(string, K)>)
    requires NoDup(Values(table))
    requires forall t :: t in ts ==> key(t) in Values(table)
    ensures multiset(Flatten(Partition(ts, key, table))) == multiset(ts)
  {
    PartitionCount(ts, key, table);
    var m := multiset(Flatten(Partition(ts, key, table)));
    forall t
      ensures m[t] == multiset(ts)[t]
    {
      if t !in ts {
        assert multiset(ts)[t] == 0;
      }
    }
  }

  /** Column `i` holds exactly the input tickets whose key is the `i`th
      table value. */
  lemma PartitionMember<K>(ts: seq<Ticket>, key: Ticket -> K, table: seq<(string, K)>, i: nat)
    requires i < |table|
    ensures forall t :: t in Partition(ts, key, table)[i].cards <==> t in ts && key(t) == table[i].1
  {
    var p := KeyIs(key, table[i].1);
    assert Partition(ts, key, table)[i].cards == Filter(ts, p);
    forall t
      ensures p(t) == (key(t) == table[i].1)
    {
    }
  }

  /** With distinct table values, no ticket is in two columns. */
  lemma PartitionDisjoint<K>(ts: seq<Ticket>, key: Ticket -> K, table: seq<(string, K)>)
    requires NoDup(Values(table))
    ensures forall i, j, t :: 0 <= i < j < |table| && t in Partition(ts, key, table)[i].cards
                              ==> t !in Partition(ts, key, table)[j].cards
  {
    forall i, j, t | 0 <= i < j < |table| && t in Partition(ts, key, table)[i].cards
      ensures t !in Partition(ts, key, table)[j].cards
    {
      PartitionMember(ts, key, table, i);
      PartitionMember(ts, key, table, j);
      assert Values(table)[i] != Values(table)[j];
    }
  }

  /** With distinct table values, a ticket whose key is one of them is in
      exactly one column, and one whose key is none of them in none. */
  lemma PartitionPlacement<K>(ts: seq<Ticket>, key: Ticket -> K, table: seq<(string, K)>)
    requires NoDup(Values(table))
    ensures forall t :: t in ts && key(t) in Values(table)
                        ==> InExactlyOneColumn(Partition(ts, key, table), t)
    ensures forall t :: key(t) !in Values(table) ==> Missing(Partition(ts, key, table), t)
  {
    var b := Partition(ts, key, table);
    PartitionDisjoint(ts, key, table);
    forall t | t in ts && key(t) in Values(table)
      ensures InExactlyOneColumn(b, t)
    {
      var i :| 0 <= i < |table| && Values(table)[i] == key(t);
      PartitionMember(ts, key, table, i);
      assert t in b[i].cards;
    }
    forall t, i | key(t) !in Values(table) && 0 <= i < |b|
      ensures t !in b[i].cards
    {
      PartitionMember(ts, key, table, i);
      assert Values(table)[i] == table[i].1;
    }
  }

  lemma PartitionFollowsInput<K>(ts: seq<Ticket>, key: Ticket -> K, table: seq<(string, K)>)
    ensures ColumnsFollowInput(Partition(ts, key, table), ts)
  {
    var b := Partition(ts, key, table);
    forall c | c in b
      ensures IsSubseq(c.cards, ts)
    {
      var i :| 0 <= i < |b| && b[i] == c;
      FilterIsSubseq(ts, KeyIs(key, table[i].1));
    }
  }

  /** Keys and the status literal each column matches. The InProgress
      column matches the two-word literal "In progress". */
  const StatusTable: seq<(string, string)> := [
    ("Backlog", "Backlog"),
    ("Todo", "Todo"),
    ("InProgress", "In progress"),
    ("Done", "Done"),
    ("Canceled", "Canceled")
  ]

  const StatusKeys: seq<string> := ["Backlog", "Todo", "InProgress", "Done", "Canceled"]

  /** The status literals some column matches. */
  const StatusLiterals: seq<string> := ["Backlog", "Todo", "In progress", "Done", "Canceled"]

  /** `groupByStatus(tickets)`: the five status columns, always present and
      always in this order, each listing its tickets in input order. */
  function GroupByStatus(ts: seq<Ticket>): (b: Board)
    ensures Keys(b) == StatusKeys
    ensures ColumnsFollowInput(b, ts)
  {
    var b := Partition(ts, StatusOf, StatusTable);
    assert Keys(b) == StatusKeys;
    PartitionFollowsInput(ts, StatusOf, StatusTable);
    b
  }

  /** A ticket is in the InProgress column iff its status is exactly
      "In progress"; each other column holds the tickets whose status is
      the column's own key. */
  lemma StatusColumnMembers(ts: seq<Ticket>)
    ensures forall t :: t in GroupByStatus(ts)[0].cards <==> t in ts && t.status == "Backlog"
    ensures forall t :: t in GroupByStatus(ts)[1].cards <==> t in ts && t.status == "Todo"
    ensures forall t :: t in GroupByStatus(ts)[2].cards <==> t in ts && t.status == "In progress"
    ensures forall t :: t in GroupByStatus(ts)[3].cards <==> t in ts && t.status == "Done"
    ensures forall t :: t in GroupByStatus(ts)[4].cards <==> t in ts && t.status == "Canceled"
  {
    PartitionMember(ts, StatusOf, StatusTable, 0);
    PartitionMember(ts, StatusOf, StatusTable, 1);
    PartitionMember(ts, StatusOf, StatusTable, 2);
    PartitionMember(ts, StatusOf, StatusTable, 3);
    PartitionMember(ts, StatusOf, StatusTable, 4);
  }

  /** The status column at position `i` holds the tickets whose status is
      the `i`th matched literal. */
  lemma StatusColumnAt(ts: seq<Ticket>, i: nat)
    requires i < 5
    ensures forall t :: t in GroupByStatus(ts)[i].cards <==> t in ts && t.status == StatusLiterals[i]
  {
    PartitionMember(ts, StatusOf, StatusTable, i);
  }

  /** Every card on the status board is an input ticket whose status is one
      of the five matched literals. */
  lemma StatusBoardShowsLiteralsOnly(ts: seq<Ticket>)
    ensures forall i, c :: 0 <= i < |GroupByStatus(ts)| && c in GroupByStatus(ts)[i].cards
                           ==> c in ts && c.status in StatusLiterals
  {
    forall i, c | 0 <= i < |GroupByStatus(ts)| && c in GroupByStatus(ts)[i].cards
      ensures c in ts && c.status in StatusLiterals
    {
      StatusColumnAt(ts, i);
    }
  }

  /** No ticket is in two status columns; a ticket whose status is one of
      the five matched literals is in exactly one, any other in none. */
  lemma StatusColumnsPlacement(ts: seq<Ticket>)
    ensures forall i, j, t :: 0 <= i < j < 5 && t in GroupByStatus(ts)[i].cards
                              ==> t !in GroupByStatus(ts)[j].cards
    ensures forall t :: t in ts && t.status in StatusLiterals ==> InExactlyOneColumn(GroupByStatus(ts), t)
    ensures forall t: Ticket :: t.status !in StatusLiterals ==> Missing(GroupByStatus(ts), t)
  {
    assert Values(StatusTable) == StatusLiterals;
    PartitionDisjoint(ts, StatusOf, StatusTable);
    PartitionPlacement(ts, StatusOf, StatusTable);
  }

  /** Keys and the priority each column matches. */
  const PriorityTable: seq<(string, int)> := [
    ("NoPriority", 0),
    ("Urgent", 4),
    ("High", 3),
    ("Medium", 2),
    ("Low", 1)
  ]

  const PriorityKeys: seq<string> := ["NoPriority", "Urgent", "High", "Medium", "Low"]

  /** `groupByPriority(tickets)`: the five priority columns, always present
      and always in this order. */
  function GroupByPriority(ts: seq<Ticket>): (b: Board)
    ensures Keys(b) == PriorityKeys
    ensures ColumnsFollowInput(b, ts)
  {
    var b := Partition(ts, PriorityOf, PriorityTable);
    assert Keys(b) == PriorityKeys;
    PartitionFollowsInput(ts, PriorityOf, PriorityTable);
    b
  }

  /** NoPriority, Urgent, High, Medium and Low hold priorities 0, 4, 3, 2
      and 1. */
  lemma PriorityColumnMembers(ts: seq<Ticket>)
    ensures forall t :: t in GroupByPriority(ts)[0].cards <==> t in ts && t.priority == 0
    ensures forall t :: t in GroupByPriority(ts)[1].cards <==> t in ts && t.priority == 4
    ensures forall t :: t in GroupByPriority(ts)[2].cards <==> t in ts && t.priority == 3
    ensures forall t :: t in GroupByPriority(ts)[3].cards <==> t in ts && t.priority == 2
    ensures forall t :: t in GroupByPriority(ts)[4].cards <==> t in ts && t.priority == 1
  {
    PartitionMember(ts, PriorityOf, PriorityTable, 0);
    PartitionMember(ts, PriorityOf, PriorityTable, 1);
    PartitionMember(ts, PriorityOf, PriorityTable, 2);
    PartitionMember(ts, PriorityOf, PriorityTable, 3);
    PartitionMember(ts, PriorityOf, PriorityTable, 4);
  }

  /** No ticket is in two priority columns; a ticket of priority 0..4 is in
      exactly one, any other in none. */
  lemma PriorityColumnsPlacement(ts: seq<Ticket>)
    ensures forall i, j, t :: 0 <= i < j < 5 && t in GroupByPriority(ts)[i].cards
                              ==> t !in GroupByPriority(ts)[j].cards
    ensures forall t :: t in ts && 0 <= t.priority <= 4 ==> InExactlyOneColumn(GroupByPriority(ts), t)
    ensures forall t: Ticket :: !(0 <= t.priority <= 4) ==> Missing(GroupByPriority(ts), t)
  {
    assert Values(PriorityTable) == [0, 4, 3, 2, 1];
    forall t: Ticket
      ensures (0 <= t.priority <= 4) == (PriorityOf(t) in Values(PriorityTable))
    {
      assert PriorityOf(t) == t.priority;
    }
    PartitionDisjoint(ts, PriorityOf, PriorityTable);
    PartitionPlacement(ts, PriorityOf, PriorityTable);
  }

  /** When every status is one of the five literals, the status board
      holds every ticket exactly as often as the input does, so the column
      sizes add up to the number of tickets. */
  lemma StatusBoardIsPartition(ts: seq<Ticket>)
    requires forall t :: t in ts ==> t.status in StatusLiterals
    ensures multiset(Flatten(GroupByStatus(ts))) == multiset(ts)
    ensures |Flatten(GroupByStatus(ts))| == |ts|
  {
    assert Values(StatusTable) == StatusLiterals;
    PartitionCovers(ts, StatusOf, StatusTable);
    assert |multiset(Flatten(GroupByStatus(ts)))| == |multiset(ts)|;
  }

  /** When every priority is in 0..4, the priority board holds every ticket
      exactly as often as the input does. */
  lemma PriorityBoardIsPartition(ts: seq<Ticket>)
    requires forall t :: t in ts ==> 0 <= t.priority <= 4
    ensures multiset(Flatten(GroupByPriority(ts))) == multiset(ts)
    ensures |Flatten(GroupByPriority(ts))| == |ts|
  {
    assert Values(PriorityTable) == [0, 4, 3, 2, 1];
    PartitionCovers(ts, PriorityOf, PriorityTable);
    assert |multiset(Flatten(GroupByPriority(ts)))| == |multiset(ts)|;
  }

  // ---------------------------------------------------------------------
  // groupByUser.

  /** `obj[k] = v` on an object: an existing key keeps its place and takes
      the new value, a new key is added last. */
  function Put(b: Board, k: string, v: seq<Ticket>): (r: Board)
    ensures Keys(r) == if k in Keys(b) then Keys(b) else Keys(b) + [k]
    ensures Lookup(r, k) == Some(v)
    ensures forall k' :: k' != k ==> Lookup(r, k') == Lookup(b, k')
    ensures forall c :: c in r ==> c in b || c == Column(k, v)
  {
    if |b| == 0 then [Column(k, v)]
    else if b[0].key == k then [Column(k, v)] + b[1..]
    else
      assert Keys(b) == [b[0].key] + Keys(b[1..]);
      [b[0]] + Put(b[1..], k, v)
  }

  function Names(users: seq<User>): (ns: seq<string>)
    ensures |ns| == |users|
    ensures forall i :: 0 <= i < |users| ==> ns[i] == users[i].name
  {
    if |users| == 0 then [] else [users[0].name] + Names(users[1..])
  }

  /** `groupByUser(tickets, users)`: the `forEach` over `users` assigns,
      for each user in turn, the tickets owned by that user's id to the
      user's name. */
  function GroupByUser(ts: seq<Ticket>, users: seq<User>): (b: Board)
    decreases |users|
    ensures NoDup(Keys(b))
    ensures forall k :: k in Keys(b) <==> k in Names(users)
    ensures ColumnsFollowInput(b, ts)
  {
    if |users| == 0 then []
    else
      var u := users[|users| - 1];
      var prior := GroupByUser(ts, users[..|users| - 1]);
      var v := Filter(ts, KeyIs(UserIdOf, u.id));
      var b := Put(prior, u.name, v);
      NamesOfPrefix(users);
      assert forall k :: k in Keys(b) <==> k in Names(users);
      assert NoDup(Keys(b)) by {
        if u.name !in Keys(prior) {
          AppendFresh(Keys(prior), u.name);
        }
      }
      FilterIsSubseq(ts, KeyIs(UserIdOf, u.id));
      b
  }

  /** Appending an element not yet present keeps a sequence free of
      repeats. */
  lemma AppendFresh(ks: seq<string>, k: string)
    requires NoDup(ks) && k !in ks
    ensures NoDup(ks + [k])
  {
    var ks' := ks + [k];
    forall i, j | 0 <= i < j < |ks'|
      ensures ks'[i] != ks'[j]
    {
      assert ks'[i] == ks[i];
      if j == |ks| {
        assert ks[i] in ks;
      }
    }
  }

  lemma {:induction false} NamesOfPrefix(users: seq<User>)
    requires |users| > 0
    ensures Names(users) == Names(users[..|users| - 1]) + [users[|users| - 1].name]
  {
    var n := |users| - 1;
    if n == 0 {
      assert users[..n] == [];
    } else {
      NamesOfPrefix(users[1..]);
      assert users[1..][..n - 1] == users[..n][1..];
      assert users[1..][n - 1] == users[n];
      assert Names(users[..n]) == [users[0].name] + Names(users[..n][1..]);
    }
  }

  /** `ks` lists names occurring in `s`, ordered by where each first
      occurs in `s`. */
  ghost predicate InFirstOccurrenceOrder(ks: seq<string>, s: seq<string>)
  {
    && (forall k :: k in ks ==> k in s)
    && forall i, j :: 0 <= i < j < |ks| ==> FirstIndex(s, ks[i]) < FirstIndex(s, ks[j])
  }

  lemma FirstOccurrenceAppend(ks: seq<string>, s: seq<string>, y: string)
    requires InFirstOccurrenceOrder(ks, s)
    ensures InFirstOccurrenceOrder(ks, s + [y])
    ensures y !in s ==> InFirstOccurrenceOrder(ks + [y], s + [y])
  {
    forall k | k in s
      ensures FirstIndex(s + [y], k) == FirstIndex(s, k)
    {
      FirstIndexAppend(s, y, k);
    }
    if y !in s {
      assert FirstIndex(s + [y], y) == |s|;
      var ks' := ks + [y];
      forall i, j | 0 <= i < j < |ks'|
        ensures FirstIndex(s + [y], ks'[i]) < FirstIndex(s + [y], ks'[j])
      {
        assert ks'[i] == ks[i] && ks[i] in s;
      }
    }
  }

  /** The user board's keys are the user names in the order each name first
      occurs in the user list. */
  lemma {:induction false} UserKeysInFirstOccurrenceOrder(ts: seq<Ticket>, users: seq<User>)
    decreases |users|
    ensures InFirstOccurrenceOrder(Keys(GroupByUser(ts, users)), Names(users))
  {
    if |users| > 0 {
      var n := |users| - 1;
      var prior := GroupByUser(ts, users[..n]);
      var name := users[n].name;
      var b := Put(prior, name, Filter(ts, KeyIs(UserIdOf, users[n].id)));
      assert GroupByUser(ts, users) == b;
      UserKeysInFirstOccurrenceOrder(ts, users[..n]);
      NamesOfPrefix(users);
      FirstOccurrenceAppend(Keys(prior), Names(users[..n]), name);
      if name in Keys(prior) {
        assert Keys(b) == Keys(prior);
      } else {
        assert name !in Names(users[..n]);
        assert Keys(b) == Keys(prior) + [name];
      }
    }
  }

  /** The user board's column for a name holds exactly the tickets of the
      LAST user with that name, in input order: a later user with the same
      name overwrites the earlier column. */
  lemma {:induction false} UserColumn(ts: seq<Ticket>, users: seq<User>, k: string)
    requires k in Names(users)
    decreases |users|
    ensures Lookup(GroupByUser(ts, users), k)
         == Some(Filter(ts, KeyIs(UserIdOf, users[LastIndex(Names(users), k)].id)))
  {
    var n := |users| - 1;
    NamesOfPrefix(users);
    if users[n].name != k {
      assert k in Names(users[..n]);
      UserColumn(ts, users[..n], k);
      LastIndexAppend(Names(users[..n]), users[n].name, k);
    }
  }

  /** In a board whose keys are distinct, looking up a column's key finds
      that column. */
  lemma {:induction false} LookupColumn(b: Board, i: nat)
    requires NoDup(Keys(b)) && i < |b|
    ensures Lookup(b, b[i].key) == Some(b[i].cards)
  {
    if i > 0 {
      assert b[0].key == Keys(b)[0] != Keys(b)[i] == b[i].key;
      assert Keys(b[1..]) == Keys(b)[1..];
      LookupColumn(b[1..], i - 1);
    }
  }

  /** A ticket whose `userId` is no user's id is on no column of the user
      board, and a ticket is on a column only if its owner is a user with
      that column's name. */
  lemma UserColumnsHoldOwnedTickets(ts: seq<Ticket>, users: seq<User>, t: Ticket, i: nat)
    ensures i < |GroupByUser(ts, users)| && t in GroupByUser(ts, users)[i].cards ==>
              && t in ts
              && exists j :: 0 <= j < |users| && users[j].id == t.userId
                             && users[j].name == GroupByUser(ts, users)[i].key
  {
    var b := GroupByUser(ts, users);
    if i < |b| && t in b[i].cards {
      var k := b[i].key;
      assert k == Keys(b)[i] && k in Names(users);
      LookupColumn(b, i);
      UserColumn(ts, users, k);
      var j := LastIndex(Names(users), k);
      assert b[i].cards == Filter(ts, KeyIs(UserIdOf, users[j].id));
      assert KeyIs(UserIdOf, users[j].id)(t);
    }
  }

  lemma UnknownUserMissing(ts: seq<Ticket>, users: seq<User>, t: Ticket)
    requires forall j :: 0 <= j < |users| ==> users[j].id != t.userId
    ensures Missing(GroupByUser(ts, users), t)
  {
    forall i | 0 <= i < |GroupByUser(ts, users)|
      ensures t !in GroupByUser(ts, users)[i].cards
    {
      if t in GroupByUser(ts, users)[i].cards {
        UserColumnsHoldOwnedTickets(ts, users, t, i);
      }
    }
  }

  // ---------------------------------------------------------------------
  // groupTickets.

  /** `groupTickets(tickets)` under a grouping mode: "User" and "Priority"
      select their partitioners, every other value groups by status. */
  function GroupTickets(grouping: string, ts: seq<Ticket>, users: seq<User>): (b: Board)
    ensures ColumnsFollowInput(b, ts)
    ensures grouping != "User" ==> |b| == 5
  {
    if grouping == "User" then GroupByUser(ts, users)
    else if grouping == "Priority" then GroupByPriority(ts)
    else GroupByStatus(ts)
  }

  /** Any grouping value other than "User" or "Priority" groups by status. */
  lemma UnknownGroupingIsStatus(grouping: string, ts: seq<Ticket>, users: seq<User>)
    requires grouping != "User" && grouping != "Priority"
    ensures GroupTickets(grouping, ts, users) == GroupTickets("Status", ts, users)
  {
  }
}
