/**
 * One-time tickets: rows that are inserted under the hash of a random token, may be used once
 * before they expire, and are swept away once they are used or expired. Consent flows
 * (agent-access-store.ts) and passkey challenges (auth-store.ts) are both kept this way.
 */
module Tickets {
  import opened Common

  datatype Ticket<T, D> = Ticket(body: T, expiresAt: int, used: Option<(int, D)>)

  type Rows<T, D> = map<Id, Ticket<T, D>>

  /** The rows that are left when every expired and every used one is deleted. */
  function Swept<T, D>(rows: Rows<T, D>, now: int): Rows<T, D> {
    rows - set h | h in rows && (rows[h].expiresAt <= now || rows[h].used.Some?)
  }

  predicate Redeemable<T, D>(rows: Rows<T, D>, hash: Id, now: int) {
    hash in rows && rows[hash].used.None? && rows[hash].expiresAt > now
  }

  function Issued<T, D>(rows: Rows<T, D>, hash: Id, body: T, now: int, lifetime: int): Rows<T, D> {
    Swept(rows, now)[hash := Ticket(body, now + lifetime, None)]
  }

  function Used<T, D>(rows: Rows<T, D>, hash: Id, now: int, mark: D): Rows<T, D>
    requires hash in rows
  {
    rows[hash := rows[hash].(used := Some((now, mark)))]
  }

  /**
   * What the rows have to do with the history of the token hashes: `issued` are the hashes ever
   * inserted, `spent` those ever used, with the mark they were used with. Rows may be missing.
   */
  ghost predicate Accounted<T, D>(rows: Rows<T, D>, issued: set<Id>, spent: map<Id, D>) {
    && rows.Keys <= issued
    && spent.Keys <= issued
    && (forall h :: h in rows && h in spent ==> rows[h].used.Some? && rows[h].used.value.1 == spent[h])
    && (forall h :: h in rows && rows[h].used.Some? ==> h in spent)
  }

  /** Issuing a ticket under a token that was never issued before keeps the books, sweep included. */
  lemma {:induction false} IssueAccounted<T, D>(rows: Rows<T, D>, issued: set<Id>, spent: map<Id, D>,
                             hash: Id, body: T, now: int, lifetime: int)
    requires Accounted(rows, issued, spent) && hash !in issued
    ensures Accounted(Issued(rows, hash, body, now, lifetime), issued + {hash}, spent)
  {
  }

  /** A ticket that can be used was never used before, whatever was swept in between. */
  lemma {:induction false} UseAccounted<T, D>(rows: Rows<T, D>, issued: set<Id>, spent: map<Id, D>,
                           hash: Id, now: int, mark: D)
    requires Accounted(rows, issued, spent) && Redeemable(rows, hash, now)
    ensures hash !in spent && hash in issued
    ensures Accounted(Used(rows, hash, now, mark), issued, spent[hash := mark])
  {
  }

  /** Deleting any rows whatsoever keeps the books. */
  lemma {:induction false} DropAccounted<T, D>(rows: Rows<T, D>, kept: Rows<T, D>, issued: set<Id>, spent: map<Id, D>)
    requires Accounted(rows, issued, spent)
    requires forall h :: h in kept ==> h in rows && kept[h] == rows[h]
    ensures Accounted(kept, issued, spent)
  {
  }
}
