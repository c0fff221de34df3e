/** The persistence around the waterfall in `src/server/action.ts`: the
    validated insert of synced transactions that skips stored hashes, the
    projection upsert keyed by transaction hash, and donation entry. Each
    table is a keyed map (or, for donations, a sequence of rows); the
    session and the clock are parameters. */
module Actions {
  import opened Wrappers
  import opened Numbers
  import opened Text
  import opened BankTypes
  import opened Seqs
  import W = Waterfall

  /** `{ success, message }`. */
  datatype Outcome = Outcome(success: bool, message: string)

  const NotLoggedIn := "You must be logged in to sync transactions"
  const NothingToSync := "No transactions to sync"
  const Synced := "Successfully synced transactions to database"
  /** What the query builder throws for `values([])`; the catch-all of
      `syncTransactionsToDb` returns an `Error`'s message. */
  const EmptyValues := "values() must be called with at least one value"
  const Unauthorized := "Unauthorized"
  const InvalidAmount := "Invalid amount"
  const DonationAdded := "Donation added"

  // ---------------------------------------------------------------------------
  // Synced transactions: validation and the insert that skips conflicts
  // ---------------------------------------------------------------------------

  /** A stored interest transaction row; `amount` is in paise and `date` is
      the `YYYY-MM-DD` text. */
  datatype StoredInterest = StoredInterest(
    userId: string,
    transactionHash: string,
    amount: int,
    date: string,
    txType: TxType,
    description: Option<string>,
    transactionId: Option<string>)

  /** One element of `transactionSchema`: a non-empty hash, and an amount
      and a balance that are numbers (NaN is not). */
  predicate Accepts(t: Transaction) {
    |t.transactionHash| >= 1 && t.amount.Finite? && t.balance.Finite?
  }

  /** `transactionSchema.safeParse` succeeds only when every element passes. */
  predicate AcceptsAll(txs: seq<Transaction>) {
    forall i :: 0 <= i < |txs| ==> Accepts(txs[i])
  }

  /** `iso.split("T")[0]`: the text before the first `T`. */
  function DatePart(iso: string): (r: string)
    ensures r <= iso && 'T' !in r
    ensures |r| < |iso| ==> iso[|r|] == 'T'
  {
    iso[..IndexOf(iso, 'T')]
  }

  /** `s || null` on an optional string: the empty string becomes null. */
  function OrNull(s: Option<string>): (r: Option<string>)
    ensures r.Some? <==> s.Some? && |s.value| > 0
    ensures r.Some? ==> r == s
  {
    if s.Some? && |s.value| > 0 then s else None
  }

  /** The row inserted for a validated transaction. */
  function Record(userId: string, iso: Date -> string, t: Transaction): StoredInterest
    requires Accepts(t)
  {
    StoredInterest(userId, t.transactionHash, t.amount.paise, DatePart(iso(t.date)), t.txType,
                   OrNull(Some(t.description)), OrNull(t.transactionId))
  }

  /** The `values(...)` list, one row per transaction in batch order. */
  function Records(userId: string, iso: Date -> string, txs: seq<Transaction>): (rs: seq<StoredInterest>)
    requires AcceptsAll(txs)
  {
    seq(|txs|, i requires 0 <= i < |txs| => Record(userId, iso, txs[i]))
  }

  /** `INSERT ... ON CONFLICT DO NOTHING`, row by row: a row whose hash is
      already stored, or was inserted earlier in the same batch, is
      skipped. */
  function InsertSkip(table: map<string, StoredInterest>, rs: seq<StoredInterest>): map<string, StoredInterest>
    decreases |rs|
  {
    if rs == [] then table
    else
      var h := rs[0].transactionHash;
      InsertSkip(if h in table then table else table[h := rs[0]], rs[1..])
  }

  /** The hashes of a batch. */
  function Hashes(rs: seq<StoredInterest>): set<string> {
    set i | 0 <= i < |rs| :: rs[i].transactionHash
  }

  lemma HashesOfCons(rs: seq<StoredInterest>)
    requires rs != []
    ensures Hashes(rs) == {rs[0].transactionHash} + Hashes(rs[1..])
  {
    forall h | h in Hashes(rs) ensures h in {rs[0].transactionHash} + Hashes(rs[1..]) {
      var i :| 0 <= i < |rs| && rs[i].transactionHash == h;
      if i > 0 {
        assert rs[1..][i - 1] == rs[i];
      }
    }
    forall h | h in Hashes(rs[1..]) ensures h in Hashes(rs) {
      var i :| 0 <= i < |rs[1..]| && rs[1..][i].transactionHash == h;
      assert rs[i + 1] == rs[1..][i];
    }
  }

  /** After the insert the table holds exactly the stored keys and the
      batch's hashes, and every row that was stored is unchanged. */
  lemma {:induction false} InsertSkipKeeps(table: map<string, StoredInterest>, rs: seq<StoredInterest>)
    ensures InsertSkip(table, rs).Keys == table.Keys + Hashes(rs)
    ensures forall k :: k in table ==> InsertSkip(table, rs)[k] == table[k]
    decreases |rs|
  {
    if rs != [] {
      var h := rs[0].transactionHash;
      InsertSkipKeeps(if h in table then table else table[h := rs[0]], rs[1..]);
      HashesOfCons(rs);
    }
  }

  /** A new hash gets the first row of the batch that carries it. */
  lemma {:induction false} InsertSkipFirst(table: map<string, StoredInterest>, rs: seq<StoredInterest>, i: nat)
    requires i < |rs| && rs[i].transactionHash !in table
    requires forall j :: 0 <= j < i ==> rs[j].transactionHash != rs[i].transactionHash
    ensures rs[i].transactionHash in InsertSkip(table, rs)
            && InsertSkip(table, rs)[rs[i].transactionHash] == rs[i]
    decreases |rs|
  {
    InsertSkipKeeps(table, rs);
    var h := rs[0].transactionHash;
    var next := if h in table then table else table[h := rs[0]];
    if i == 0 {
      InsertSkipKeeps(next, rs[1..]);
    } else {
      assert rs[1..][i - 1] == rs[i];
      forall j | 0 <= j < i - 1 ensures rs[1..][j].transactionHash != rs[i].transactionHash {
        assert rs[1..][j] == rs[j + 1];
      }
      InsertSkipFirst(next, rs[1..], i - 1);
    }
  }

  /** Inserting a batch whose hashes are all stored changes nothing. */
  lemma {:induction false} InsertSkipStored(table: map<string, StoredInterest>, rs: seq<StoredInterest>)
    requires Hashes(rs) <= table.Keys
    ensures InsertSkip(table, rs) == table
    decreases |rs|
  {
    if rs != [] {
      HashesOfCons(rs);
      InsertSkipStored(table, rs[1..]);
    }
  }

  /** Syncing the same batch twice leaves the table as the first sync left
      it. */
  lemma ResyncIsIdempotent(table: map<string, StoredInterest>, rs: seq<StoredInterest>)
    ensures InsertSkip(InsertSkip(table, rs), rs) == InsertSkip(table, rs)
  {
    InsertSkipKeeps(table, rs);
    InsertSkipStored(InsertSkip(table, rs), rs);
  }

  /** The interest transaction table, keyed by the unique transaction hash. */
  class InterestTable {
    var rows: map<string, StoredInterest>

    constructor()
      ensures rows == map[]
    {
      rows := map[];
    }

    /** `syncTransactionsToDb`, with the session's user (None when there is
        no session) and `toISOString` as parameters. */
    method Sync(session: Option<string>, txs: seq<Transaction>, iso: Date -> string) returns (r: Outcome)
      modifies this
      ensures session.None? ==> r == Outcome(false, NotLoggedIn) && rows == old(rows)
      ensures session.Some? && !AcceptsAll(txs) ==> r == Outcome(false, NothingToSync) && rows == old(rows)
      ensures session.Some? && AcceptsAll(txs) && |txs| == 0 ==> r == Outcome(false, EmptyValues) && rows == old(rows)
      ensures session.Some? && AcceptsAll(txs) && |txs| > 0 ==>
                r == Outcome(true, Synced) && rows == InsertSkip(old(rows), Records(session.value, iso, txs))
    {
      if session.None? {
        return Outcome(false, NotLoggedIn);
      }
      if !AcceptsAll(txs) {
        return Outcome(false, NothingToSync);
      }
      if |txs| == 0 {
        return Outcome(false, EmptyValues);
      }
      rows := InsertSkip(rows, Records(session.value, iso, txs));
      return Outcome(true, Synced);
    }
  }

  // ---------------------------------------------------------------------------
  // Projection rows: the upsert keyed by transaction hash
  // ---------------------------------------------------------------------------

  /** The `onConflictDoUpdate` `set` list: the incoming row's donated and
      remaining amounts, status, update time, donation date, description,
      transaction date and transaction id replace the stored ones. */
  function Merge(stored: W.Projection, incoming: W.Projection): W.Projection {
    stored.(donatedAmount := incoming.donatedAmount,
            remainingAmount := incoming.remainingAmount,
            status := incoming.status,
            updatedAt := incoming.updatedAt,
            donationAt := incoming.donationAt,
            description := incoming.description,
            transactionDate := incoming.transactionDate,
            transactionId := incoming.transactionId)
  }

  /** Insert a new key, or merge into the stored row. */
  function Put(table: map<string, W.Projection>, u: W.Projection): map<string, W.Projection> {
    table[u.transactionHash := if u.transactionHash in table then Merge(table[u.transactionHash], u) else u]
  }

  /** The upsert of a batch of rows. */
  function Upsert(table: map<string, W.Projection>, us: seq<W.Projection>): map<string, W.Projection>
    decreases |us|
  {
    if us == [] then table else Upsert(Put(table, us[0]), us[1..])
  }

  function ProjectionHashes(us: seq<W.Projection>): set<string> {
    set i | 0 <= i < |us| :: us[i].transactionHash
  }

  /** A merged row is the incoming row except for the user and the amount,
      which stay as stored. `Merge` lists the columns the conflict clause
      sets; this holds by unfolding, and it checks that no other column is
      left out of that list. */
  lemma MergeKeepsUserAndAmount(stored: W.Projection, incoming: W.Projection)
    requires stored.transactionHash == incoming.transactionHash
    ensures Merge(stored, incoming) == incoming.(userId := stored.userId, amount := stored.amount)
  {
  }

  lemma ProjectionHashesOfCons(us: seq<W.Projection>)
    requires us != []
    ensures ProjectionHashes(us) == {us[0].transactionHash} + ProjectionHashes(us[1..])
  {
    forall h | h in ProjectionHashes(us) ensures h in {us[0].transactionHash} + ProjectionHashes(us[1..]) {
      var i :| 0 <= i < |us| && us[i].transactionHash == h;
      if i > 0 {
        assert us[1..][i - 1] == us[i];
      }
    }
    forall h | h in ProjectionHashes(us[1..]) ensures h in ProjectionHashes(us) {
      var i :| 0 <= i < |us[1..]| && us[1..][i].transactionHash == h;
      assert us[i + 1] == us[1..][i];
    }
  }

  /** The upsert adds exactly the batch's keys and leaves every other row as
      it was. */
  lemma {:induction false} UpsertKeys(table: map<string, W.Projection>, us: seq<W.Projection>)
    ensures Upsert(table, us).Keys == table.Keys + ProjectionHashes(us)
    ensures forall k :: k in table && k !in ProjectionHashes(us) ==> Upsert(table, us)[k] == table[k]
    decreases |us|
  {
    if us != [] {
      UpsertKeys(Put(table, us[0]), us[1..]);
      ProjectionHashesOfCons(us);
    }
  }

  /** When the batch's hashes are distinct, each batch row is inserted as
      is under a new key, or merged into the stored row under an existing
      one. */
  lemma {:induction false} UpsertRow(table: map<string, W.Projection>, us: seq<W.Projection>, i: nat)
    requires i < |us|
    requires forall a, b :: 0 <= a < b < |us| ==> us[a].transactionHash != us[b].transactionHash
    ensures var h := us[i].transactionHash;
            h in Upsert(table, us) && Upsert(table, us)[h] == if h in table then Merge(table[h], us[i]) else us[i]
    decreases |us|
  {
    UpsertKeys(table, us);
    var h := us[i].transactionHash;
    if i == 0 {
      UpsertKeys(Put(table, us[0]), us[1..]);
      assert h !in ProjectionHashes(us[1..]);
    } else {
      assert us[1..][i - 1] == us[i];
      assert h != us[0].transactionHash;
      UpsertRow(Put(table, us[0]), us[1..], i - 1);
    }
  }

  /** The waterfall's rows carry the transactions' hashes, so they are
      distinct when those are, as the unique index on the hash ensures. */
  lemma WaterfallHashesDistinct(userId: string, ts: seq<W.Interest>, ds: seq<W.Donation>, now: int)
    requires forall a, b :: 0 <= a < b < |ts| ==> ts[a].transactionHash != ts[b].transactionHash
    ensures var us := W.Waterfall(userId, ts, ds, now);
            forall a, b :: 0 <= a < b < |us| ==> us[a].transactionHash != us[b].transactionHash
  {
    var us := W.Waterfall(userId, ts, ds, now);
    forall a, b | 0 <= a < b < |us| ensures us[a].transactionHash != us[b].transactionHash {
      W.RowCopies(userId, ts, ds, now, a);
      W.RowCopies(userId, ts, ds, now, b);
    }
  }

  /** The projection table, keyed by the unique transaction hash. */
  class ProjectionTable {
    var rows: map<string, W.Projection>

    constructor()
      ensures rows == map[]
    {
      rows := map[];
    }

    /** `reconcileUserInterests`, given the user's transactions and
        donations as the two date-ordered queries return them and the
        clock reading: compute the waterfall, then upsert its rows unless
        there are none. */
    method ReconcileUser(userId: string, interests: seq<W.Interest>, donations: seq<W.Donation>, now: int)
      modifies this
      ensures rows == Upsert(old(rows), W.Waterfall(userId, interests, donations, now))
      ensures |interests| == 0 ==> rows == old(rows)
    {
      var updates := W.Reconcile(userId, interests, donations, now);
      if |updates| > 0 {
        rows := Upsert(rows, updates);
      }
    }
  }

  // ---------------------------------------------------------------------------
  // Donations
  // ---------------------------------------------------------------------------

  datatype StoredDonation = StoredDonation(userId: string, amount: int, date: string)

  /** `donationSchema`: a number (not NaN) greater than zero. */
  predicate PositiveAmount(n: Num) {
    n.Finite? && n.paise > 0
  }

  /** The donations a user's reconciliation reads, in stored order. */
  function UserDonations(rows: seq<StoredDonation>, userId: string): seq<W.Donation> {
    FilterMap((d: StoredDonation) => if d.userId == userId then Some(W.Donation(d.amount, d.date)) else None, rows)
  }

  /** Donations admitted by `addDonation` are positive, so the waterfall's
      pool meets the precondition of its closed form. */
  lemma UserDonationsArePositive(rows: seq<StoredDonation>, userId: string)
    requires forall i :: 0 <= i < |rows| ==> rows[i].amount > 0
    ensures W.Positive(UserDonations(rows, userId))
  {
    var f := (d: StoredDonation) => if d.userId == userId then Some(W.Donation(d.amount, d.date)) else None;
    forall k | 0 <= k < |UserDonations(rows, userId)| ensures UserDonations(rows, userId)[k].amount > 0 {
      FilterMapSource(f, rows, k);
    }
  }

  /** The donation table. */
  class DonationTable {
    var rows: seq<StoredDonation>

    /** Every stored donation is positive. */
    predicate Valid()
      reads this
    {
      forall i :: 0 <= i < |rows| ==> rows[i].amount > 0
    }

    constructor()
      ensures rows == [] && Valid()
    {
      rows := [];
    }

    /** `addDonation`, with the session's user (None when there is no
        session) and `new Date().toISOString()` as parameters. */
    method AddDonation(session: Option<string>, amount: Num, clock: string) returns (r: Outcome)
      requires Valid()
      modifies this
      ensures Valid()
      ensures session.None? ==> r == Outcome(false, Unauthorized) && rows == old(rows)
      ensures session.Some? && !PositiveAmount(amount) ==> r == Outcome(false, InvalidAmount) && rows == old(rows)
      ensures session.Some? && PositiveAmount(amount) ==>
                r == Outcome(true, DonationAdded)
                && rows == old(rows) + [StoredDonation(session.value, amount.paise, DatePart(clock))]
    {
      if session.None? {
        return Outcome(false, Unauthorized);
      }
      if !PositiveAmount(amount) {
        return Outcome(false, InvalidAmount);
      }
      rows := rows + [StoredDonation(session.value, amount.paise, DatePart(clock))];
      return Outcome(true, DonationAdded);
    }
  }
}
