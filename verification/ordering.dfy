/** `sortTickets`: the ordering applied to the whole ticket list before it
    is grouped (src/Home/Home.jsx:48-56). */
module Ordering {
  import opened Seqs
  import opened Sorting
  import opened Tickets

  /** `a` may precede `b` under the comparator `b.priority - a.priority`:
      that difference is at most zero. */
  predicate PriorityFirst(a: Ticket, b: Ticket)
  {
    b.priority - a.priority <= 0
  }

  /** `localeCompare` is a call into the host's collation tables. It is a
      parameter here: `collate(x, y)` holds when `x.localeCompare(y) <= 0`. */
  type Collation = (string, string) -> bool

  /** `a` may precede `b` under `a.title.localeCompare(b.title)`. */
  function TitleFirst(collate: Collation): (Ticket, Ticket) -> bool
  {
    (a: Ticket, b: Ticket) => collate(a.title, b.title)
  }

  /** No ticket is followed by one of strictly higher priority. */
  ghost predicate NonIncreasingPriority(s: seq<Ticket>)
  {
    forall i, j :: 0 <= i < j < |s| ==> s[i].priority >= s[j].priority
  }

  /** The comparator `sortTickets` uses for an ordering mode: "Title" sorts
      by collated title, every other value by priority. */
  function Comparator(ordering: string, collate: Collation): (le: (Ticket, Ticket) -> bool)
    ensures ordering == "Title" ==> forall a, b :: le(a, b) == collate(a.title, b.title)
    ensures ordering != "Title" ==> forall a, b :: le(a, b) == (a.priority >= b.priority)
  {
    if ordering == "Title" then TitleFirst(collate) else PriorityFirst
  }

  /** `sortTickets(tickets)` under the given ordering mode. */
  function SortTickets(ordering: string, ts: seq<Ticket>, collate: Collation): (r: seq<Ticket>)
    ensures multiset(r) == multiset(ts)
    ensures ordering != "Title" ==> NonIncreasingPriority(r)
    ensures ordering != "Title" ==>
      forall p :: Filter(r, KeyIs(PriorityOf, p)) == Filter(ts, KeyIs(PriorityOf, p))
  {
    var r := SortBy(ts, Comparator(ordering, collate));
    if ordering == "Title" then r
    else
      PriorityStable(ts);
      r
  }

  lemma PriorityFirstPreorder()
    ensures TotalPreorder(PriorityFirst)
  {
  }

  lemma TitleFirstPreorder(collate: Collation)
    requires TotalPreorder(collate)
    ensures TotalPreorder(TitleFirst(collate))
  {
    var le := TitleFirst(collate);
    forall a, b, c | le(a, b) && le(b, c)
      ensures le(a, c)
    {
      assert collate(a.title, b.title) && collate(b.title, c.title);
    }
    forall a, b
      ensures le(a, b) || le(b, a)
    {
      assert collate(a.title, b.title) || collate(b.title, a.title);
    }
  }

  /** With a consistent collation, Title ordering leaves every adjacent pair
      of titles in collation order, and keeps tickets whose titles collate
      equal in input order. */
  lemma TitleSorted(ts: seq<Ticket>, collate: Collation)
    requires TotalPreorder(collate)
    ensures Sorted(SortTickets("Title", ts, collate), TitleFirst(collate))
    ensures StableWrt(SortTickets("Title", ts, collate), ts, TitleFirst(collate))
  {
    TitleFirstPreorder(collate);
    SortByStable(ts, TitleFirst(collate));
    SortBySorted(ts, TitleFirst(collate));
  }

  /** Priority order is stable: the tickets of each priority come out in
      their input order, and higher priorities come first. */
  lemma PriorityStable(ts: seq<Ticket>)
    ensures NonIncreasingPriority(SortBy(ts, PriorityFirst))
    ensures forall p :: Filter(SortBy(ts, PriorityFirst), KeyIs(PriorityOf, p))
                     == Filter(ts, KeyIs(PriorityOf, p))
  {
    var r := SortBy(ts, PriorityFirst);
    PriorityFirstPreorder();
    SortBySorted(ts, PriorityFirst);
    SortByStable(ts, PriorityFirst);
    forall p
      ensures Filter(r, KeyIs(PriorityOf, p)) == Filter(ts, KeyIs(PriorityOf, p))
    {
      var c := Ticket("", "", "", p, "", "");
      var e := EquivTo(PriorityFirst, c);
      assert Filter(r, e) == Filter(ts, e);
      PriorityClass(c);
      FilterExt(r, e, KeyIs(PriorityOf, p));
      FilterExt(ts, e, KeyIs(PriorityOf, p));
    }
  }

  /** Under the priority comparator, the tickets equivalent to `c` are those
      of `c`'s priority. */
  lemma PriorityClass(c: Ticket)
    ensures forall x :: EquivTo(PriorityFirst, c)(x) == KeyIs(PriorityOf, c.priority)(x)
  {
    forall x
      ensures EquivTo(PriorityFirst, c)(x) == KeyIs(PriorityOf, c.priority)(x)
    {
      assert EquivTo(PriorityFirst, c)(x) == (PriorityFirst(c, x) && PriorityFirst(x, c));
      var key: Ticket -> int := PriorityOf;
      assert key(x) == x.priority;
      assert KeyIs(PriorityOf, c.priority)(x) == (key(x) == c.priority);
    }
  }

  /** Sorting a list that is already in priority order returns it unchanged,
      so re-sorting the board by priority is a no-op. */
  lemma SortTicketsIdempotent(ordering: string, ts: seq<Ticket>, collate: Collation)
    requires ordering != "Title" || TotalPreorder(collate)
    ensures SortTickets(ordering, SortTickets(ordering, ts, collate), collate)
         == SortTickets(ordering, ts, collate)
  {
    var le := Comparator(ordering, collate);
    if ordering == "Title" {
      TitleFirstPreorder(collate);
    } else {
      PriorityFirstPreorder();
    }
    SortByIdempotent(ts, le);
  }

  /** Any ordering value other than "Title" sorts by priority. */
  lemma UnknownOrderingIsPriority(ordering: string, ts: seq<Ticket>, collate: Collation)
    requires ordering != "Title"
    ensures SortTickets(ordering, ts, collate) == SortTickets("Priority", ts, collate)
  {
  }

  /** The priority order is exactly the stable sort: a list that is a
      permutation of the input, in non-increasing priority, and keeps the
      tickets of each priority in input order, is `SortTickets`' result. */
  lemma PriorityOrderIsUnique(ts: seq<Ticket>, r: seq<Ticket>, collate: Collation)
    requires multiset(r) == multiset(ts)
    requires NonIncreasingPriority(r)
    requires forall p :: Filter(r, KeyIs(PriorityOf, p)) == Filter(ts, KeyIs(PriorityOf, p))
    ensures r == SortTickets("Priority", ts, collate)
  {
    PriorityFirstPreorder();
    forall c
      ensures Filter(r, EquivTo(PriorityFirst, c)) == Filter(ts, EquivTo(PriorityFirst, c))
    {
      var e := EquivTo(PriorityFirst, c);
      PriorityClass(c);
      assert Filter(r, KeyIs(PriorityOf, c.priority)) == Filter(ts, KeyIs(PriorityOf, c.priority));
      FilterExt(r, e, KeyIs(PriorityOf, c.priority));
      FilterExt(ts, e, KeyIs(PriorityOf, c.priority));
    }
    SortByIsTheStableSort(ts, r, PriorityFirst);
  }
}
