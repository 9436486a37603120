/** The records the board works on, as the remote endpoint delivers them. */
module Tickets {

  /** JavaScript's `null`-or-value, used for the dragged ticket and for a
      `localStorage` read. */
  datatype Option<+T> = None | Some(value: T)

  /** A ticket. Identifiers are compared with `===`, which on the strings
      the endpoint sends is plain equality. */
  datatype Ticket = Ticket(
    id: string,
    title: string,
    status: string,
    priority: int,
    tag: string,
    userId: string)

  datatype User = User(id: string, name: string)

  function StatusOf(t: Ticket): string { t.status }

  function PriorityOf(t: Ticket): int { t.priority }

  function UserIdOf(t: Ticket): string { t.userId }

  function IdOf(t: Ticket): string { t.id }

  /** `a` and `b` agree on every field except possibly `status`. */
  predicate SameButStatus(a: Ticket, b: Ticket)
  {
    a.(status := b.status) == b
  }
}
