/**
  The accounting both e-mail senders share: a row without an address is
  skipped, a row whose send raised is logged and passed over, and the count
  returned is the number of sends that returned normally.
 */
module SendAccounting {
  import opened Strings
  import opened FileUtils

  /** The row has an address: its e-mail holds a non-whitespace character, so `(row.get("email") or "").strip()` is not empty. */
  predicate HasEmail(row: Record) {
    NonBlank(row.email)
  }

  /**
    The count after the first `n` rows, where `returned(i)` says whether the
    send for row `i` returned normally.
   */
  function SentCount(rows: seq<Record>, returned: nat -> bool, n: nat): nat
    requires n <= |rows|
  {
    if n == 0 then 0
    else SentCount(rows, returned, n - 1) + (if HasEmail(rows[n - 1]) && returned(n - 1) then 1 else 0)
  }

  /** One more row: counted exactly when it has an address and its send returned. */
  lemma {:induction false} SentCountStep(rows: seq<Record>, returned: nat -> bool, n: nat, counted: bool)
    requires n < |rows|
    requires counted == (HasEmail(rows[n]) && returned(n))
    ensures SentCount(rows, returned, n + 1) == SentCount(rows, returned, n) + (if counted then 1 else 0)
  {
  }

  /** The number of rows with an address among the first `n`. */
  function WithEmailCount(rows: seq<Record>, n: nat): nat
    requires n <= |rows|
  {
    if n == 0 then 0
    else WithEmailCount(rows, n - 1) + (if HasEmail(rows[n - 1]) then 1 else 0)
  }

  /** No more sends are counted than rows have an address, and no more than there are rows. */
  lemma {:induction false} SentWithinAddressed(rows: seq<Record>, returned: nat -> bool, n: nat)
    requires n <= |rows|
    ensures SentCount(rows, returned, n) <= WithEmailCount(rows, n) <= n
  {
    if n > 0 {
      SentWithinAddressed(rows, returned, n - 1);
    }
  }

  /** When every send returned, every row with an address is counted. */
  lemma {:induction false} AllReturnAllCounted(rows: seq<Record>, returned: nat -> bool, n: nat)
    requires n <= |rows|
    requires forall i :: 0 <= i < n ==> returned(i)
    ensures SentCount(rows, returned, n) == WithEmailCount(rows, n)
  {
    if n > 0 {
      AllReturnAllCounted(rows, returned, n - 1);
    }
  }

  /** When no send returned, nothing is counted. */
  lemma {:induction false} NoneReturnNoneCounted(rows: seq<Record>, returned: nat -> bool, n: nat)
    requires n <= |rows|
    requires forall i :: 0 <= i < n ==> !returned(i)
    ensures SentCount(rows, returned, n) == 0
  {
    if n > 0 {
      NoneReturnNoneCounted(rows, returned, n - 1);
    }
  }

  /**
    A send that raises costs only its own row: every other row with an
    address is still counted.
   */
  lemma {:induction false} OneFailureOneLess(rows: seq<Record>, returned: nat -> bool, n: nat, k: nat)
    requires k < n <= |rows|
    requires !returned(k) && forall i :: 0 <= i < n && i != k ==> returned(i)
    ensures SentCount(rows, returned, n) == WithEmailCount(rows, n) - (if HasEmail(rows[k]) then 1 else 0)
    decreases n
  {
    if n - 1 == k {
      AllReturnAllCounted(rows, returned, k);
    } else {
      OneFailureOneLess(rows, returned, n - 1, k);
    }
  }
}
