/** The FIFO donation waterfall of `reconcileUserInterests`
    (`src/server/action.ts`): the user's interest transactions, oldest first,
    draw on one pooled sequence of donations, oldest first, and each
    transaction gets one projection row saying how much of it is covered.
    Amounts are integer paise. */
module Waterfall {
  import opened Wrappers

  datatype Status = NotDonated | PartiallyDonated | FullyDonated

  /** A stored interest transaction, with the fields reconciliation reads
      (`date` is the stored `YYYY-MM-DD` text). */
  datatype Interest = Interest(
    transactionHash: string,
    transactionId: Option<string>,
    amount: int,
    description: Option<string>,
    date: string)

  datatype Donation = Donation(amount: int, date: string)

  /** One row of `projectionUpdates`; `updatedAt` is the clock reading the
      caller passes in. */
  datatype Projection = Projection(
    userId: string,
    transactionHash: string,
    transactionId: Option<string>,
    amount: int,
    donatedAmount: int,
    remainingAmount: int,
    description: Option<string>,
    transactionDate: string,
    donationAt: Option<string>,
    status: Status,
    updatedAt: int)

  /** The donation cursor: `donationIdx` and `currentDonationRemaining`. */
  datatype Pool = Pool(idx: nat, remaining: int)

  /** The state the inner loop leaves: the cursor, `covered` and
      `lastContributingDonationDate`. */
  datatype Cover = Cover(pool: Pool, covered: int, last: Option<string>)

  /** `Math.min`. */
  function Min(a: int, b: int): int { if a <= b then a else b }

  function Pos(a: int): nat { if a > 0 then a else 0 }

  /** The cursor before the first transaction. */
  function StartPool(ds: seq<Donation>): Pool {
    Pool(0, if |ds| > 0 then ds[0].amount else 0)
  }

  /** `take`: what one turn of the inner loop moves from the current
      donation. */
  function Take(p: Pool, needed: int): int { Min(needed, p.remaining) }

  /** The cursor after one turn of the inner loop: an exhausted donation
      moves it to the next one, whose amount it loads when there is one. */
  function Next(ds: seq<Donation>, p: Pool, needed: int): (q: Pool)
    requires p.idx < |ds|
    ensures q.idx == p.idx + 1 || (q.idx == p.idx && needed - Take(p, needed) <= 0)
  {
    var rest := p.remaining - Take(p, needed);
    if rest == 0 then
      Pool(p.idx + 1, if p.idx + 1 < |ds| then ds[p.idx + 1].amount else rest)
    else
      Pool(p.idx, rest)
  }

  /** The inner `while` loop: take from the current donation until the
      transaction is covered or the donations run out. */
  function Drain(ds: seq<Donation>, p: Pool, needed: int, covered: int, last: Option<string>): (c: Cover)
    requires p.idx <= |ds|
    ensures p.idx <= c.pool.idx <= |ds|
    decreases |ds| - p.idx, if needed > 0 then 1 else 0
  {
    if needed <= 0 || p.idx == |ds| then Cover(p, covered, last)
    else Drain(ds, Next(ds, p, needed), needed - Take(p, needed), covered + Take(p, needed), Some(ds[p.idx].date))
  }

  /** The status rule. */
  function StatusOf(remaining: int, covered: int): Status {
    if remaining == 0 then FullyDonated
    else if covered > 0 then PartiallyDonated
    else NotDonated
  }

  /** The row pushed for transaction `t` once the inner loop left `c`. */
  function Row(userId: string, t: Interest, c: Cover, now: int): Projection {
    Projection(userId, t.transactionHash, t.transactionId, t.amount, c.covered, t.amount - c.covered,
               t.description, t.date, c.last, StatusOf(t.amount - c.covered, c.covered), now)
  }

  /** The cursor before transaction `k`. */
  function PoolAt(ds: seq<Donation>, ts: seq<Interest>, k: nat): (p: Pool)
    requires k <= |ts|
    ensures p.idx <= |ds|
  {
    if k == 0 then StartPool(ds)
    else Drain(ds, PoolAt(ds, ts, k - 1), ts[k - 1].amount, 0, None).pool
  }

  /** What the inner loop leaves for transaction `k`. */
  function CoverAt(ds: seq<Donation>, ts: seq<Interest>, k: nat): Cover
    requires k < |ts|
  {
    Drain(ds, PoolAt(ds, ts, k), ts[k].amount, 0, None)
  }

  /** `projectionUpdates` once the first `k` transactions are processed. */
  function Rows(userId: string, ts: seq<Interest>, ds: seq<Donation>, now: int, k: nat): (rows: seq<Projection>)
    requires k <= |ts|
    ensures |rows| == k
  {
    if k == 0 then [] else Rows(userId, ts, ds, now, k - 1) + [Row(userId, ts[k - 1], CoverAt(ds, ts, k - 1), now)]
  }

  /** `projectionUpdates` for all the transactions. */
  function Waterfall(userId: string, ts: seq<Interest>, ds: seq<Donation>, now: int): (rows: seq<Projection>)
    ensures |rows| == |ts|
  {
    Rows(userId, ts, ds, now, |ts|)
  }

  /** `reconcileUserInterests` from the fetched inputs to the rows it
      upserts. */
  method Reconcile(userId: string, interests: seq<Interest>, donations: seq<Donation>, now: int)
    returns (updates: seq<Projection>)
    ensures updates == Waterfall(userId, interests, donations, now)
  {
    updates := [];
    if |interests| == 0 {
      return;
    }
    var donationIdx: nat := 0;
    var currentDonationRemaining := if |donations| > 0 then donations[0].amount else 0;
    var k := 0;
    while k < |interests|
      invariant k <= |interests| && donationIdx <= |donations|
      invariant updates == Rows(userId, interests, donations, now, k)
      invariant Pool(donationIdx, currentDonationRemaining) == PoolAt(donations, interests, k)
    {
      var interest := interests[k];
      var covered, last;
      donationIdx, currentDonationRemaining, covered, last :=
        Consume(donations, interest.amount, donationIdx, currentDonationRemaining);
      assert CoverAt(donations, interests, k) == Cover(Pool(donationIdx, currentDonationRemaining), covered, last);
      var remainingAmount := interest.amount - covered;
      var status := NotDonated;
      if remainingAmount == 0 {
        status := FullyDonated;
      } else if covered > 0 {
        status := PartiallyDonated;
      }
      var row := Projection(userId, interest.transactionHash, interest.transactionId, interest.amount,
                            covered, remainingAmount, interest.description, interest.date, last, status, now);
      assert row == Row(userId, interests[k], CoverAt(donations, interests, k), now);
      assert Rows(userId, interests, donations, now, k + 1) == updates + [row];
      assert PoolAt(donations, interests, k + 1) == CoverAt(donations, interests, k).pool;
      updates := updates + [row];
      k := k + 1;
    }
  }

  /** The inner `while` loop for one transaction, from the cursor the
      earlier transactions left: it leaves the cursor, the amount covered
      and the date recorded that `Drain` computes. */
  method Consume(donations: seq<Donation>, amount: int, idx0: nat, remaining0: int)
    returns (donationIdx: nat, currentDonationRemaining: int, covered: int, last: Option<string>)
    requires idx0 <= |donations|
    ensures donationIdx <= |donations|
    ensures Cover(Pool(donationIdx, currentDonationRemaining), covered, last)
            == Drain(donations, Pool(idx0, remaining0), amount, 0, None)
  {
    donationIdx, currentDonationRemaining := idx0, remaining0;
    var needed := amount;
    covered, last := 0, None;
    while needed > 0 && donationIdx < |donations|
      invariant donationIdx <= |donations|
      invariant Drain(donations, Pool(idx0, remaining0), amount, 0, None)
                == Drain(donations, Pool(donationIdx, currentDonationRemaining), needed, covered, last)
      decreases |donations| - donationIdx, if needed > 0 then 1 else 0
    {
      ghost var before := Pool(donationIdx, currentDonationRemaining);
      ghost var asked := needed;
      var take := Min(needed, currentDonationRemaining);
      covered := covered + take;
      needed := needed - take;
      currentDonationRemaining := currentDonationRemaining - take;
      last := Some(donations[donationIdx].date);
      if currentDonationRemaining == 0 {
        donationIdx := donationIdx + 1;
        if donationIdx < |donations| {
          currentDonationRemaining := donations[donationIdx].amount;
        }
      }
      assert Pool(donationIdx, currentDonationRemaining) == Next(donations, before, asked);
    }
  }

  // ---------------------------------------------------------------------------
  // The closed form: position arithmetic over the pooled donations
  // ---------------------------------------------------------------------------

  /** The sum of the amounts of the donations before `k`. */
  function Before(ds: seq<Donation>, k: nat): int
    requires k <= |ds|
  {
    if k == 0 then 0 else Before(ds, k - 1) + ds[k - 1].amount
  }

  /** The sum of all donation amounts. */
  function Total(ds: seq<Donation>): int {
    Before(ds, |ds|)
  }

  /** What the transactions before `k` ask of the pool: the sum of their
      positive amounts (a non-positive amount is never covered). */
  function NeedBefore(ts: seq<Interest>, k: nat): int
    requires k <= |ts|
  {
    if k == 0 then 0 else NeedBefore(ts, k - 1) + Pos(ts[k - 1].amount)
  }

  /** Every donation is of a positive amount, as `donationSchema` demands. */
  predicate Positive(ds: seq<Donation>) {
    forall k :: 0 <= k < |ds| ==> ds[k].amount > 0
  }

  /** The cursor points at a donation that still has something left, or past
      the last one. */
  predicate Good(ds: seq<Donation>, p: Pool) {
    p.idx <= |ds| && (p.idx < |ds| ==> 0 < p.remaining <= ds[p.idx].amount)
  }

  /** How much of the pool the cursor has consumed. */
  function Used(ds: seq<Donation>, p: Pool): int
    requires p.idx <= |ds|
  {
    if p.idx < |ds| then Before(ds, p.idx + 1) - p.remaining else Total(ds)
  }

  /** Donation `j` holds pool position `pos` (positions count paise from the
      oldest donation onwards, starting at 0). */
  predicate Owns(ds: seq<Donation>, j: nat, pos: int) {
    j < |ds| && Before(ds, j) <= pos < Before(ds, j + 1)
  }

  /** With positive donations the prefix sums grow by at least one per
      donation. */
  lemma {:induction false} TotalGrows(ds: seq<Donation>, a: nat, b: nat)
    requires Positive(ds) && a <= b <= |ds|
    ensures Before(ds, a) + (b - a) <= Before(ds, b)
    decreases b - a
  {
    if a < b {
      TotalGrows(ds, a, b - 1);
    }
  }

  lemma UsedBounds(ds: seq<Donation>, p: Pool)
    requires Positive(ds) && Good(ds, p)
    ensures Before(ds, p.idx) <= Used(ds, p) <= Total(ds)
    ensures 0 <= Used(ds, p)
  {
    TotalGrows(ds, 0, p.idx);
    if p.idx < |ds| {
      TotalGrows(ds, p.idx + 1, |ds|);
    }
  }

  /** One turn of the inner loop takes something, keeps the cursor well
      placed, consumes what it takes, and what it takes lies in the current
      donation. */
  lemma NextFacts(ds: seq<Donation>, p: Pool, needed: int)
    requires Positive(ds) && Good(ds, p) && needed > 0 && p.idx < |ds|
    ensures Take(p, needed) > 0 && Good(ds, Next(ds, p, needed))
    ensures Take(p, needed) == needed || (Take(p, needed) == p.remaining < needed)
    ensures Used(ds, Next(ds, p, needed)) == Used(ds, p) + Take(p, needed)
    ensures Owns(ds, p.idx, Used(ds, p) + Take(p, needed) - 1)
    ensures p.remaining <= Total(ds) - Used(ds, p)
  {
    UsedBounds(ds, p);
    TotalGrows(ds, p.idx + 1, |ds|);
  }

  /** One run of the inner loop takes `Min(needed, what is left of the
      pool)`, consumes exactly that much of the pool and leaves the cursor
      well placed. */
  lemma {:induction false} DrainTakes(ds: seq<Donation>, p: Pool, needed: int, covered: int, last: Option<string>)
    requires Positive(ds) && Good(ds, p)
    ensures Good(ds, Drain(ds, p, needed, covered, last).pool)
    ensures Drain(ds, p, needed, covered, last).covered - covered == Min(Pos(needed), Total(ds) - Used(ds, p))
    ensures Used(ds, Drain(ds, p, needed, covered, last).pool)
            == Used(ds, p) + (Drain(ds, p, needed, covered, last).covered - covered)
    decreases |ds| - p.idx, if needed > 0 then 1 else 0
  {
    UsedBounds(ds, p);
    if needed > 0 && p.idx < |ds| {
      NextFacts(ds, p, needed);
      DrainTakes(ds, Next(ds, p, needed), needed - Take(p, needed), covered + Take(p, needed), Some(ds[p.idx].date));
    }
  }

  /** The donation holding pool position `pos`, searching from `j`
      (`|ds|` when none does). */
  function OwnerFrom(ds: seq<Donation>, pos: int, j: nat): (r: nat)
    requires j <= |ds|
    ensures j <= r <= |ds|
    decreases |ds| - j
  {
    if j == |ds| || pos < Before(ds, j + 1) then j else OwnerFrom(ds, pos, j + 1)
  }

  function Owner(ds: seq<Donation>, pos: int): nat {
    OwnerFrom(ds, pos, 0)
  }

  /** `Owner` finds the one donation holding a position. */
  lemma {:induction false} OwnerFromOwns(ds: seq<Donation>, pos: int, j: nat, k: nat)
    requires Positive(ds) && j <= k && Owns(ds, k, pos)
    ensures OwnerFrom(ds, pos, j) == k
    decreases |ds| - j
  {
    if j < k {
      TotalGrows(ds, j + 1, k);
      OwnerFromOwns(ds, pos, j + 1, k);
    }
  }

  lemma OwnerOwns(ds: seq<Donation>, pos: int, k: nat)
    requires Positive(ds) && Owns(ds, k, pos)
    ensures Owner(ds, pos) == k
  {
    OwnerFromOwns(ds, pos, 0, k);
  }

  /** `c` records the date of the donation holding the last position
      consumed. */
  predicate RecordsOwner(ds: seq<Donation>, c: Cover) {
    c.pool.idx <= |ds|
    && Owns(ds, Owner(ds, Used(ds, c.pool) - 1), Used(ds, c.pool) - 1)
    && c.last == Some(ds[Owner(ds, Used(ds, c.pool) - 1)].date)
  }

  /** When the rest of the loop takes nothing more, the date recorded is
      that of the donation the first turn took from. */
  lemma FirstTurnOwns(ds: seq<Donation>, p: Pool, needed: int, c: Cover)
    requires Positive(ds) && Good(ds, p) && needed > 0 && p.idx < |ds|
    requires c.pool.idx <= |ds| && Used(ds, c.pool) == Used(ds, p) + Take(p, needed)
    requires c.last == Some(ds[p.idx].date)
    ensures RecordsOwner(ds, c)
  {
    NextFacts(ds, p, needed);
    OwnerOwns(ds, Used(ds, p) + Take(p, needed) - 1, p.idx);
  }

  /** The date the inner loop records is that of the donation holding the
      last position it consumed, and nothing is recorded when nothing is
      taken. */
  lemma {:induction false} DrainLast(ds: seq<Donation>, p: Pool, needed: int, covered: int, last: Option<string>)
    requires Positive(ds) && Good(ds, p)
    ensures var c := Drain(ds, p, needed, covered, last);
            c.covered == covered ==> c.last == last
    ensures var c := Drain(ds, p, needed, covered, last);
            c.covered > covered ==> RecordsOwner(ds, c)
    decreases |ds| - p.idx, if needed > 0 then 1 else 0
  {
    if needed > 0 && p.idx < |ds| {
      var q := Next(ds, p, needed);
      var take := Take(p, needed);
      var date := Some(ds[p.idx].date);
      NextFacts(ds, p, needed);
      DrainTakes(ds, q, needed - take, covered + take, date);
      DrainLast(ds, q, needed - take, covered + take, date);
      var c := Drain(ds, q, needed - take, covered + take, date);
      assert Drain(ds, p, needed, covered, last) == c;
      UsedBounds(ds, q);
      assert c.covered >= covered + take > covered;
      if c.covered == covered + take {
        FirstTurnOwns(ds, p, needed, c);
      }
    } else {
      assert Drain(ds, p, needed, covered, last).covered == covered;
    }
  }

  /** Before each transaction the cursor has consumed exactly as much of the
      pool as the earlier transactions asked for, or the whole pool. */
  lemma {:induction false} PoolAtUsed(ds: seq<Donation>, ts: seq<Interest>, k: nat)
    requires Positive(ds) && k <= |ts|
    ensures Good(ds, PoolAt(ds, ts, k))
    ensures Used(ds, PoolAt(ds, ts, k)) == Min(NeedBefore(ts, k), Total(ds))
  {
    UsedBounds(ds, Pool(|ds|, 0));
    if k == 0 && |ds| > 0 {
      assert Before(ds, 1) == ds[0].amount;
    } else if k > 0 {
      PoolAtUsed(ds, ts, k - 1);
      DrainTakes(ds, PoolAt(ds, ts, k - 1), ts[k - 1].amount, 0, None);
    }
  }

  // ---------------------------------------------------------------------------
  // What each projection row says
  // ---------------------------------------------------------------------------

  lemma {:induction false} RowsAt(userId: string, ts: seq<Interest>, ds: seq<Donation>, now: int, i: nat, k: nat)
    requires i < k <= |ts|
    ensures Rows(userId, ts, ds, now, k)[i] == Row(userId, ts[i], CoverAt(ds, ts, i), now)
    decreases k
  {
    if i < k - 1 {
      RowsAt(userId, ts, ds, now, i, k - 1);
    }
  }

  /** Row `i` is the projection of transaction `i`: one row per
      transaction, in the same order, carrying its identity and data. */
  lemma RowCopies(userId: string, ts: seq<Interest>, ds: seq<Donation>, now: int, i: nat)
    requires i < |ts|
    ensures var r := Waterfall(userId, ts, ds, now)[i];
            && r.userId == userId && r.transactionHash == ts[i].transactionHash
            && r.transactionId == ts[i].transactionId && r.amount == ts[i].amount
            && r.description == ts[i].description && r.transactionDate == ts[i].date
            && r.updatedAt == now
  {
    RowsAt(userId, ts, ds, now, i, |ts|);
  }

  /** The closed form of the waterfall: transaction `i` is covered by
      whatever the pool has left after the positive amounts of the
      transactions before it, up to its own amount, and the date it records
      is that of the donation holding the last paisa that covers it. */
  lemma RowCover(userId: string, ts: seq<Interest>, ds: seq<Donation>, now: int, i: nat)
    requires Positive(ds) && i < |ts|
    ensures var r := Waterfall(userId, ts, ds, now)[i];
            && r.donatedAmount == Min(Pos(ts[i].amount), Pos(Total(ds) - NeedBefore(ts, i)))
            && r.remainingAmount == ts[i].amount - r.donatedAmount
            && (r.donatedAmount == 0 ==> r.donationAt.None?)
    ensures var r := Waterfall(userId, ts, ds, now)[i];
            var pos := NeedBefore(ts, i) + r.donatedAmount - 1;
            r.donatedAmount > 0 ==> Owns(ds, Owner(ds, pos), pos) && r.donationAt == Some(ds[Owner(ds, pos)].date)
  {
    RowsAt(userId, ts, ds, now, i, |ts|);
    var p := PoolAt(ds, ts, i);
    PoolAtUsed(ds, ts, i);
    UsedBounds(ds, p);
    DrainTakes(ds, p, ts[i].amount, 0, None);
    DrainLast(ds, p, ts[i].amount, 0, None);
  }

  /** Each row conserves its amount: what is donated plus what remains is
      the amount, and no row is covered beyond its amount or the pool. */
  lemma RowBalance(userId: string, ts: seq<Interest>, ds: seq<Donation>, now: int, i: nat)
    requires Positive(ds) && i < |ts|
    ensures var r := Waterfall(userId, ts, ds, now)[i];
            && 0 <= r.donatedAmount <= Pos(ts[i].amount)
            && r.donatedAmount <= Total(ds)
            && r.donatedAmount + r.remainingAmount == ts[i].amount
  {
    RowCover(userId, ts, ds, now, i);
    NeedNonNegative(ts, i);
    UsedBounds(ds, Pool(|ds|, 0));
  }

  lemma {:induction false} NeedNonNegative(ts: seq<Interest>, k: nat)
    requires k <= |ts|
    ensures NeedBefore(ts, k) >= 0
  {
    if k > 0 {
      NeedNonNegative(ts, k - 1);
    }
  }

  lemma {:induction false} NeedGrows(ts: seq<Interest>, a: nat, b: nat)
    requires a <= b <= |ts|
    ensures NeedBefore(ts, a) <= NeedBefore(ts, b)
    decreases b - a
  {
    if a < b {
      NeedGrows(ts, a, b - 1);
    }
  }

  /** The status names the coverage: fully donated exactly when nothing
      remains, partially donated exactly when some but not all of a positive
      amount is covered, not donated otherwise. */
  lemma StatusMeaning(userId: string, ts: seq<Interest>, ds: seq<Donation>, now: int, i: nat)
    requires Positive(ds) && i < |ts|
    ensures var r := Waterfall(userId, ts, ds, now)[i];
            && (r.status == FullyDonated <==> r.donatedAmount == ts[i].amount)
            && (r.status == PartiallyDonated <==> 0 < r.donatedAmount < ts[i].amount)
            && (r.status == NotDonated <==> r.donatedAmount == 0 && ts[i].amount != 0)
    ensures Waterfall(userId, ts, ds, now)[i].status == FullyDonated
            <==> ts[i].amount == 0 || (ts[i].amount > 0 && NeedBefore(ts, i) + ts[i].amount <= Total(ds))
  {
    RowsAt(userId, ts, ds, now, i, |ts|);
    RowCover(userId, ts, ds, now, i);
  }

  /** First in, first out: while an earlier transaction is not fully
      covered, no later one receives anything. */
  lemma FifoOrder(userId: string, ts: seq<Interest>, ds: seq<Donation>, now: int, i: nat, j: nat)
    requires Positive(ds) && i < j < |ts|
    requires Waterfall(userId, ts, ds, now)[j].donatedAmount > 0
    ensures Waterfall(userId, ts, ds, now)[i].donatedAmount == Pos(ts[i].amount)
  {
    RowCover(userId, ts, ds, now, i);
    RowCover(userId, ts, ds, now, j);
    NeedGrows(ts, i + 1, j);
  }

  /** The sum of `donatedAmount` over the first `k` rows. */
  function DonatedBefore(rows: seq<Projection>, k: nat): int
    requires k <= |rows|
  {
    if k == 0 then 0 else DonatedBefore(rows, k - 1) + rows[k - 1].donatedAmount
  }

  /** Together the rows draw exactly the smaller of what the transactions
      ask and what was donated: the pool is never overdrawn and never left
      unused while something is uncovered. */
  lemma {:induction false} DonatedTotal(userId: string, ts: seq<Interest>, ds: seq<Donation>, now: int, k: nat)
    requires Positive(ds) && k <= |ts|
    ensures DonatedBefore(Waterfall(userId, ts, ds, now), k) == Min(NeedBefore(ts, k), Total(ds))
  {
    UsedBounds(ds, Pool(|ds|, 0));
    if k > 0 {
      DonatedTotal(userId, ts, ds, now, k - 1);
      RowCover(userId, ts, ds, now, k - 1);
      NeedNonNegative(ts, k - 1);
    }
  }

  /** When the donations cover every transaction, every positive amount is
      fully donated; when some positive amount is not, the whole pool has
      been handed out. */
  lemma {:induction false} Shortfall(userId: string, ts: seq<Interest>, ds: seq<Donation>, now: int, i: nat)
    requires Positive(ds) && i < |ts| && ts[i].amount > 0
    ensures NeedBefore(ts, |ts|) <= Total(ds) ==> Waterfall(userId, ts, ds, now)[i].status == FullyDonated
    ensures Waterfall(userId, ts, ds, now)[i].status != FullyDonated
            ==> DonatedBefore(Waterfall(userId, ts, ds, now), |ts|) == Total(ds)
  {
    StatusMeaning(userId, ts, ds, now, i);
    NeedGrows(ts, i + 1, |ts|);
    DonatedTotal(userId, ts, ds, now, |ts|);
  }

  /** Without donations nothing is covered, no donation date is recorded
      and every transaction with a non-zero amount is not donated. */
  lemma NoDonations(userId: string, ts: seq<Interest>, now: int, i: nat)
    requires i < |ts|
    ensures var r := Waterfall(userId, ts, [], now)[i];
            && r.donatedAmount == 0 && r.remainingAmount == ts[i].amount && r.donationAt.None?
            && (ts[i].amount != 0 ==> r.status == NotDonated)
  {
    RowCover(userId, ts, [], now, i);
    StatusMeaning(userId, ts, [], now, i);
  }

  /** One donation of 120 against transactions of 100 and then 50: the
      first is fully covered, the second gets the remaining 20. */
  lemma SplitExample(userId: string, now: int, t1: Interest, t2: Interest, d: Donation)
    requires t1.amount == 10000 && t2.amount == 5000 && d.amount == 12000
    ensures var rows := Waterfall(userId, [t1, t2], [d], now);
            && rows[0].donatedAmount == 10000 && rows[0].status == FullyDonated
            && rows[1].donatedAmount == 2000 && rows[1].remainingAmount == 3000
            && rows[1].status == PartiallyDonated && rows[1].donationAt == Some(d.date)
  {
    var ts := [t1, t2];
    assert NeedBefore(ts, 1) == 10000;
    assert Before([d], 1) == 12000;
    assert Total([d]) == 12000;
    RowCover(userId, ts, [d], now, 0);
    RowCover(userId, ts, [d], now, 1);
    StatusMeaning(userId, ts, [d], now, 0);
    StatusMeaning(userId, ts, [d], now, 1);
  }

  /** Donations of 50 and 50 are pooled across three transactions of 30:
      all three are fully covered, 90 is handed out in total, and the second
      and third rows record the second donation's date. */
  lemma PooledExample(userId: string, now: int, t1: Interest, t2: Interest, t3: Interest, d1: Donation, d2: Donation)
    requires t1.amount == 3000 && t2.amount == 3000 && t3.amount == 3000
    requires d1.amount == 5000 && d2.amount == 5000
    ensures var rows := Waterfall(userId, [t1, t2, t3], [d1, d2], now);
            && rows[0].donatedAmount == 3000 && rows[0].donationAt == Some(d1.date)
            && rows[1].donatedAmount == 3000 && rows[1].donationAt == Some(d2.date)
            && rows[2].donatedAmount == 3000 && rows[2].status == FullyDonated
            && rows[2].donationAt == Some(d2.date)
            && DonatedBefore(rows, 3) == 9000
  {
    var ts := [t1, t2, t3];
    var ds := [d1, d2];
    assert NeedBefore(ts, 1) == 3000;
    assert NeedBefore(ts, 2) == 6000;
    assert Before(ds, 1) == 5000;
    assert Before(ds, 2) == 10000;
    assert Total(ds) == 10000;
    RowCover(userId, ts, ds, now, 0);
    RowCover(userId, ts, ds, now, 1);
    RowCover(userId, ts, ds, now, 2);
    OwnerOwns(ds, 2999, 0);
    OwnerOwns(ds, 5999, 1);
    OwnerOwns(ds, 8999, 1);
    StatusMeaning(userId, ts, ds, now, 2);
    assert NeedBefore(ts, 3) == 9000;
    DonatedTotal(userId, ts, ds, now, 3);
  }
}
