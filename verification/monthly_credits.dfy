/**
 * The monthly credit renewal job: every user on the basic plan whose credits
 * have no expiry or expired strictly before `now` is reset to 10 credits that
 * expire thirty days later; every other row is left alone.
 */
module MonthlyCredits {
  import opened Common
  import opened UsersRoute

  const ThirtyDaysMs: int := 30 * 24 * 60 * 60 * 1000
  const RenewedBalance: int := 10

  /** `plan = 'basic' AND (credits_expires_at IS NULL OR credits_expires_at < now)`. */
  predicate NeedsRenewal(u: UserRow, now: int)
    ensures u.plan != "basic" ==> !NeedsRenewal(u, now)
    ensures u.plan == "basic" && u.creditsExpiresAt.None? ==> NeedsRenewal(u, now)
    ensures u.plan == "basic" && u.creditsExpiresAt.Some? ==> (NeedsRenewal(u, now) <==> u.creditsExpiresAt.value < now)
  {
    u.plan == "basic" && (u.creditsExpiresAt.None? || u.creditsExpiresAt.value < now)
  }

  /** The SET clause: balance 10, expiry thirty days on, updated now. */
  function Renewed(u: UserRow, now: int): (v: UserRow)
    ensures v.creditBalance == RenewedBalance && v.creditsExpiresAt == Some(now + ThirtyDaysMs) && v.updatedAt == now
    ensures v.(creditBalance := u.creditBalance, creditsExpiresAt := u.creditsExpiresAt, updatedAt := u.updatedAt) == u
    ensures !NeedsRenewal(v, now)
  {
    u.(creditBalance := RenewedBalance, creditsExpiresAt := Some(now + ThirtyDaysMs), updatedAt := now)
  }

  /** The whole table after the UPDATE. */
  function RenewAll(rows: seq<UserRow>, now: int): (r: seq<UserRow>)
    ensures |r| == |rows|
    ensures forall i :: 0 <= i < |r| ==> r[i] == (if NeedsRenewal(rows[i], now) then Renewed(rows[i], now) else rows[i])
  {
    seq(|rows|, i requires 0 <= i < |rows| => if NeedsRenewal(rows[i], now) then Renewed(rows[i], now) else rows[i])
  }

  /** The emails RETURNING yields, in table order. */
  function RenewedEmails(rows: seq<UserRow>, now: int): (r: seq<string>)
    ensures |r| <= |rows|
  {
    if rows == [] then []
    else
      var rest := RenewedEmails(rows[..|rows| - 1], now);
      if NeedsRenewal(rows[|rows| - 1], now) then rest + [rows[|rows| - 1].email] else rest
  }

  /** The positions of the rows the predicate selects. */
  function Eligible(rows: seq<UserRow>, now: int): set<int> {
    set i | 0 <= i < |rows| && NeedsRenewal(rows[i], now)
  }

  /** Number of rows the predicate selects. */
  function CountEligible(rows: seq<UserRow>, now: int): (n: nat)
    ensures n <= |rows|
    ensures n == 0 <==> forall i :: 0 <= i < |rows| ==> !NeedsRenewal(rows[i], now)
    ensures n == |Eligible(rows, now)|
  {
    if rows == [] then 0
    else
      var rest := CountEligible(rows[..|rows| - 1], now);
      assert forall i :: 0 <= i < |rows| - 1 ==> rows[..|rows| - 1][i] == rows[i];
      EligibleLast(rows, now);
      if NeedsRenewal(rows[|rows| - 1], now) then rest + 1 else rest
  }

  /** The selected positions of a table are those of all but its last row, plus the last if selected. */
  lemma EligibleLast(rows: seq<UserRow>, now: int)
    requires rows != []
    ensures var last := |rows| - 1; var before := Eligible(rows[..last], now);
      && last !in before
      && Eligible(rows, now) == if NeedsRenewal(rows[last], now) then before + {last} else before
  {
    var last := |rows| - 1;
    var before := Eligible(rows[..last], now);
    var after := if NeedsRenewal(rows[last], now) then before + {last} else before;
    forall i ensures i in Eligible(rows, now) <==> i in after {
      if 0 <= i < last {
        assert rows[..last][i] == rows[i];
      }
    }
  }

  /** RETURNING works row by row: the emails of a table are those of its parts, in order. */
  lemma {:induction false} RenewedEmailsAppend(a: seq<UserRow>, b: seq<UserRow>, now: int)
    ensures RenewedEmails(a + b, now) == RenewedEmails(a, now) + RenewedEmails(b, now)
  {
    if b != [] {
      var ab := a + b;
      assert ab[..|ab| - 1] == a + b[..|b| - 1];
      assert ab[|ab| - 1] == b[|b| - 1];
      RenewedEmailsAppend(a, b[..|b| - 1], now);
    } else {
      assert a + b == a;
    }
  }

  /** A single row yields its email exactly when it is renewed. */
  lemma RenewedEmailsSingle(u: UserRow, now: int)
    ensures RenewedEmails([u], now) == if NeedsRenewal(u, now) then [u.email] else []
  {
    assert [u][..0] == [];
  }

  /** One email is returned per renewed row. */
  lemma {:induction false} EmailsMatchCount(rows: seq<UserRow>, now: int)
    ensures |RenewedEmails(rows, now)| == CountEligible(rows, now)
  {
    if rows != [] {
      EmailsMatchCount(rows[..|rows| - 1], now);
    }
  }

  /** Running the job again at the same instant renews nobody and changes nothing. */
  lemma RenewIdempotent(rows: seq<UserRow>, now: int)
    ensures CountEligible(RenewAll(rows, now), now) == 0
    ensures RenewAll(RenewAll(rows, now), now) == RenewAll(rows, now)
  {
    var once := RenewAll(rows, now);
    assert forall i :: 0 <= i < |once| ==> !NeedsRenewal(once[i], now);
  }

  /** Rows the predicate does not select are unchanged; selected rows change only the three SET columns. */
  lemma RenewChangesOnlySelected(rows: seq<UserRow>, now: int, i: int)
    requires 0 <= i < |rows|
    ensures !NeedsRenewal(rows[i], now) ==> RenewAll(rows, now)[i] == rows[i]
    ensures var v := RenewAll(rows, now)[i];
      v.id == rows[i].id && v.email == rows[i].email && v.password == rows[i].password
      && v.plan == rows[i].plan && v.role == rows[i].role && v.status == rows[i].status
  {
  }

  /** A user the job would renew now would also be renewed by any later run. */
  lemma EligibilityPersists(u: UserRow, now: int, later: int)
    requires NeedsRenewal(u, now) && now <= later
    ensures NeedsRenewal(u, later)
  {
  }

  /** Credits that expire exactly at `now` are not yet renewed. */
  lemma ExpiryAtNowNotRenewed(u: UserRow, now: int)
    requires u.creditsExpiresAt == Some(now)
    ensures !NeedsRenewal(u, now)
  {
  }

  /** Renewal keeps emails and ids, so the users table stays consistent. */
  lemma RenewPreservesConsistency(rows: seq<UserRow>, nextId: nat, now: int)
    requires Consistent(rows, nextId)
    ensures Consistent(RenewAll(rows, now), nextId)
  {
  }

  /**
   * The GET handler: updates the table row by row and reports how many rows
   * were renewed and their emails.
   */
  method RenewMonthlyCredits(table: UserTable, now: int) returns (updatedCount: nat, updatedUsers: seq<string>)
    requires table.Valid()
    modifies table
    ensures table.Valid()
    ensures table.rows == RenewAll(old(table.rows), now) && table.nextId == old(table.nextId)
    ensures updatedUsers == RenewedEmails(old(table.rows), now)
    ensures updatedCount == CountEligible(old(table.rows), now)
  {
    var rows := table.rows;
    var i := 0;
    updatedUsers := [];
    while i < |rows|
      invariant 0 <= i <= |rows| && |table.rows| == |rows|
      invariant table.nextId == old(table.nextId)
      invariant forall j :: 0 <= j < i ==>
        table.rows[j] == (if NeedsRenewal(rows[j], now) then Renewed(rows[j], now) else rows[j])
      invariant forall j :: i <= j < |rows| ==> table.rows[j] == rows[j]
      invariant updatedUsers == RenewedEmails(rows[..i], now)
    {
      assert rows[..i + 1][..i] == rows[..i];
      if NeedsRenewal(rows[i], now) {
        table.rows := table.rows[i := Renewed(rows[i], now)];
        updatedUsers := updatedUsers + [rows[i].email];
      }
      i := i + 1;
    }
    assert rows[..i] == rows;
    assert table.rows == RenewAll(rows, now);
    EmailsMatchCount(rows, now);
    updatedCount := |updatedUsers|;
    RenewPreservesConsistency(rows, table.nextId, now);
  }
}
