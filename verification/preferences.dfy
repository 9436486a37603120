/** The two persisted view preferences and their defaults on load
    (src/Home/Home.jsx:9-14). Reading `localStorage` is a parameter: the
    stored string, or `None` when the key is absent. */
module Preferences {
  import opened Tickets
  import opened Ordering
  import opened Grouping

  /** `localStorage.getItem(key) || fallback`. `getItem` yields `null` for
      an absent key, and `||` also passes over the empty string, the only
      falsy string. Any other stored string is used as it is, unchecked. */
  function StoredOr(stored: Option<string>, fallback: string): (r: string)
    ensures r == fallback || stored == Some(r)
    ensures r == fallback <== stored.None? || stored == Some("")
    ensures stored.Some? && stored.value != "" ==> r == stored.value
  {
    match stored
    case Some(v) => if v != "" then v else fallback
    case None => fallback
  }

  /** The grouping mode `Home` starts with. */
  function InitialGrouping(stored: Option<string>): (g: string)
    ensures g != ""
    ensures stored.None? || stored == Some("") ==> g == "Status"
    ensures stored.Some? && stored.value != "" ==> g == stored.value
  {
    StoredOr(stored, "Status")
  }

  /** The ordering mode `Home` starts with. */
  function InitialOrdering(stored: Option<string>): (o: string)
    ensures o != ""
    ensures stored.None? || stored == Some("") ==> o == "Priority"
    ensures stored.Some? && stored.value != "" ==> o == stored.value
  {
    StoredOr(stored, "Priority")
  }

  /** A missing or empty stored grouping, or one that is not "User" or
      "Priority", groups the board by status. */
  lemma DefaultGroupingIsStatus(stored: Option<string>, ts: seq<Ticket>, users: seq<User>)
    requires stored !in {Some("User"), Some("Priority")}
    ensures GroupTickets(InitialGrouping(stored), ts, users) == GroupByStatus(ts)
  {
  }

  /** A missing or empty stored ordering, or one that is not "Title", sorts
      the board by priority. */
  lemma DefaultOrderingIsPriority(stored: Option<string>, ts: seq<Ticket>, collate: Collation)
    requires stored != Some("Title")
    ensures SortTickets(InitialOrdering(stored), ts, collate) == SortTickets("Priority", ts, collate)
  {
  }

  /** A selection made in the dropdown, once stored, is the mode the next
      load starts with. */
  lemma SelectionSurvivesReload(grouping: string, ordering: string)
    requires grouping in ["Status", "User", "Priority"]
    requires ordering in ["Priority", "Title"]
    ensures InitialGrouping(Some(grouping)) == grouping
    ensures InitialOrdering(Some(ordering)) == ordering
  {
  }
}
