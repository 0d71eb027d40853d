/**
 The single-use nonce store of the forward-auth handshake: mint a row, consume it with one
 conditional delete, sweep away expired rows. Each is one statement, so every concurrent
 execution is some order of them.
 */
module Nonces {
  import opened Basics

  type Nonce = string
  type Domain = string

  datatype Row = Row(domain: Domain, expiresAt: Time)
  type Table = map<Nonce, Row>

  datatype Op =
    | Mint(nonce: Nonce, domain: Domain, expiresAt: Time)
    | Consume(nonce: Nonce, domain: Domain, now: Time)
    | Sweep(now: Time)

  /** Whether the statement takes hold: the primary key admits the insert, or the delete matches a row. */
  predicate Hits(t: Table, op: Op) {
    match op
    case Mint(n, _, _) => n !in t
    case Consume(n, d, now) => n in t && t[n].domain == d && t[n].expiresAt > now
    case Sweep(_) => true
  }

  function Apply(t: Table, op: Op): (t': Table) {
    match op
    case Mint(n, d, e) => if n in t then t else t[n := Row(d, e)]
    case Consume(n, d, now) => if Hits(t, op) then t - {n} else t
    case Sweep(now) => map n | n in t && t[n].expiresAt > now :: t[n]
  }

  function Run(t: Table, ops: seq<Op>): (t': Table) {
    if ops == [] then t else Apply(Run(t, ops[..|ops| - 1]), ops[|ops| - 1])
  }

  /** The outcome of the i-th statement of a run from the empty table. */
  predicate HitAt(ops: seq<Op>, i: nat)
    requires i < |ops|
  {
    Hits(Run(map[], ops[..i]), ops[i])
  }

  /** How many statements of the given sort on one nonce took hold. */
  function Mints(ops: seq<Op>, n: Nonce): (k: nat) {
    if ops == [] then 0
    else
      var last := |ops| - 1;
      Mints(ops[..last], n) + if ops[last].Mint? && ops[last].nonce == n &&
          Hits(Run(map[], ops[..last]), ops[last]) then 1 else 0
  }

  function Consumptions(ops: seq<Op>, n: Nonce): (k: nat) {
    if ops == [] then 0
    else
      var last := |ops| - 1;
      Consumptions(ops[..last], n) + if ops[last].Consume? && ops[last].nonce == n &&
          Hits(Run(map[], ops[..last]), ops[last]) then 1 else 0
  }

  /** How many sweeps found the nonce expired. */
  function Expiries(ops: seq<Op>, n: Nonce): (k: nat) {
    if ops == [] then 0
    else
      var last := |ops| - 1;
      var before := Run(map[], ops[..last]);
      Expiries(ops[..last], n) +
      if ops[last].Sweep? && n in before && before[n].expiresAt <= ops[last].now then 1 else 0
  }

  /** A statement that misses changes nothing; a mint or a consumption that hits changes the table. */
  lemma MissChangesNothing(t: Table, op: Op)
    ensures !Hits(t, op) ==> Apply(t, op) == t
    ensures Hits(t, op) && !op.Sweep? ==> Apply(t, op) != t
  {
    if Hits(t, op) && !op.Sweep? {
      assert op.nonce in Apply(t, op) <==> op.nonce !in t;
    }
  }

  /**
   Single use, as a balance: in every order of statements each mint that took hold is consumed once, or
   swept once, or still outstanding.
   */
  lemma {:induction false} EveryMintIsAccountedFor(ops: seq<Op>, n: Nonce)
    ensures Mints(ops, n) == Consumptions(ops, n) + Expiries(ops, n) + if n in Run(map[], ops) then 1 else 0
    decreases |ops|
  {
    if ops != [] {
      EveryMintIsAccountedFor(ops[..|ops| - 1], n);
    }
  }

  /** Consumptions plus the row still outstanding never exceed the mints. */
  lemma ConsumedAtMostOncePerMint(ops: seq<Op>, n: Nonce)
    ensures Consumptions(ops, n) + (if n in Run(map[], ops) then 1 else 0) <= Mints(ops, n)
  {
    EveryMintIsAccountedFor(ops, n);
  }

  /** The k-th statement neither redeems the nonce nor sweeps a row of it that expires at `expiresAt`. */
  predicate Spares(ops: seq<Op>, n: Nonce, expiresAt: Time, k: nat)
    requires k < |ops|
  {
    && (ops[k].Consume? && ops[k].nonce == n ==> !HitAt(ops, k))
    && (ops[k].Sweep? ==> ops[k].now < expiresAt)
  }

  /** A row in the table is what some earlier mint inserted, untouched since. */
  lemma {:induction false} RowHasItsMint(ops: seq<Op>, n: Nonce) returns (j: nat)
    requires n in Run(map[], ops)
    ensures j < |ops| && ops[j] == Mint(n, Run(map[], ops)[n].domain, Run(map[], ops)[n].expiresAt) && HitAt(ops, j)
    ensures forall k :: j < k < |ops| ==> Spares(ops, n, ops[j].expiresAt, k)
    decreases |ops|
  {
    var last := |ops| - 1;
    var before := ops[..last];
    if ops[last].Mint? && ops[last].nonce == n && n !in Run(map[], before) {
      j := last;
    } else {
      assert n in Run(map[], before) && Run(map[], before)[n] == Run(map[], ops)[n];
      j := RowHasItsMint(before, n);
      assert before[..j] == ops[..j];
      forall k | j < k < |ops|
        ensures Spares(ops, n, ops[j].expiresAt, k)
      {
        if k < last {
          assert before[..k] == ops[..k] && before[k] == ops[k];
          assert Spares(before, n, before[j].expiresAt, k);
        }
      }
    }
  }

  /** A row is still there, as minted, while every statement since its mint spares it. */
  lemma {:induction false} MintStays(ops: seq<Op>, j: nat)
    requires j < |ops| && ops[j].Mint? && HitAt(ops, j)
    requires forall k :: j < k < |ops| ==> Spares(ops, ops[j].nonce, ops[j].expiresAt, k)
    ensures ops[j].nonce in Run(map[], ops) && Run(map[], ops)[ops[j].nonce] == Row(ops[j].domain, ops[j].expiresAt)
    decreases |ops|
  {
    var last := |ops| - 1;
    var before := ops[..last];
    if j < last {
      assert before[..j] == ops[..j];
      forall k | j < k < last
        ensures Spares(before, before[j].nonce, before[j].expiresAt, k)
      {
        assert before[..k] == ops[..k] && Spares(ops, ops[j].nonce, ops[j].expiresAt, k);
      }
      MintStays(before, j);
      assert Spares(ops, ops[j].nonce, ops[j].expiresAt, last);
    }
  }

  /** The j-th statement is a mint the i-th, a consumption, can redeem. */
  ghost predicate Redeems(ops: seq<Op>, i: nat, j: nat)
    requires i < |ops| && ops[i].Consume?
  {
    && j < i && ops[j].Mint? && ops[j].nonce == ops[i].nonce && HitAt(ops, j)
    && ops[j].domain == ops[i].domain && ops[j].expiresAt > ops[i].now
    && forall k :: j < k < i ==> Spares(ops, ops[j].nonce, ops[j].expiresAt, k)
  }

  /**
   A consumption succeeds exactly if an earlier mint of the nonce took hold for the same domain, is not
   expired, and was neither redeemed nor swept in between.
   */
  lemma ConsumptionIff(ops: seq<Op>, i: nat)
    requires i < |ops| && ops[i].Consume?
    ensures HitAt(ops, i) <==> exists j: nat :: Redeems(ops, i, j)
  {
    var before := ops[..i];
    if HitAt(ops, i) {
      var j := ConsumptionRedeemsMint(ops, i);
      assert Redeems(ops, i, j);
    }
    if j: nat :| Redeems(ops, i, j) {
      assert before[..j] == ops[..j];
      forall k | j < k < i
        ensures Spares(before, before[j].nonce, before[j].expiresAt, k)
      {
        assert before[..k] == ops[..k] && Spares(ops, ops[j].nonce, ops[j].expiresAt, k);
      }
      MintStays(before, j);
    }
  }

  /**
   Every successful consumption redeems a mint for the same domain that has not expired and was not
   redeemed before.
   */
  lemma ConsumptionRedeemsMint(ops: seq<Op>, i: nat) returns (j: nat)
    requires i < |ops| && ops[i].Consume? && HitAt(ops, i)
    ensures j < i && ops[j].Mint? && ops[j].nonce == ops[i].nonce && HitAt(ops, j)
    ensures ops[j].domain == ops[i].domain && ops[j].expiresAt > ops[i].now
    ensures forall k :: j < k < i ==> Spares(ops, ops[i].nonce, ops[j].expiresAt, k)
  {
    var before := ops[..i];
    j := RowHasItsMint(before, ops[i].nonce);
    assert before[..j] == ops[..j];
    forall k | j < k < i
      ensures Spares(ops, ops[i].nonce, ops[j].expiresAt, k)
    {
      assert before[..k] == ops[..k] && before[k] == ops[k];
      assert Spares(before, ops[i].nonce, before[j].expiresAt, k);
    }
  }

  // ---------------------------------------------------------------- sweeps

  /** Results of the non-sweep statements, in order. */
  function Results(t: Table, ops: seq<Op>): (rs: seq<bool>)
    decreases |ops|
  {
    if ops == [] then []
    else (if ops[0].Sweep? then [] else [Hits(t, ops[0])]) + Results(Apply(t, ops[0]), ops[1..])
  }

  function WithoutSweeps(ops: seq<Op>): (r: seq<Op>) {
    if ops == [] then [] else (if ops[0].Sweep? then [] else [ops[0]]) + WithoutSweeps(ops[1..])
  }

  /** The clock read by consumptions and sweeps does not run backwards. */
  predicate Clocked(start: Time, ops: seq<Op>)
    decreases |ops|
  {
    ops != [] ==>
      if ops[0].Mint? then Clocked(start, ops[1..]) else start <= ops[0].now && Clocked(ops[0].now, ops[1..])
  }

  /** `swept` is `full` less some rows that have expired by `now`. */
  ghost predicate LessExpired(full: Table, swept: Table, now: Time) {
    && swept.Keys <= full.Keys
    && (forall n :: n in swept ==> swept[n] == full[n])
    && (forall n :: n in full && n !in swept ==> full[n].expiresAt <= now)
  }

  lemma StepIgnoresExpired(full: Table, swept: Table, now: Time, op: Op)
    requires LessExpired(full, swept, now) && !op.Sweep?
    requires op.Consume? ==> now <= op.now
    requires op.Mint? ==> op.nonce !in full || op.nonce in swept
    ensures Hits(full, op) == Hits(swept, op)
    ensures LessExpired(Apply(full, op), Apply(swept, op), if op.Mint? then now else op.now)
  {
  }

  /** Run the statements with and without the sweeps: no mint meets an expired row that only the sweeps removed. */
  predicate NoMintOnSwept(full: Table, swept: Table, ops: seq<Op>)
    decreases |ops|
  {
    ops != [] ==>
      if ops[0].Sweep? then NoMintOnSwept(full, Apply(swept, ops[0]), ops[1..])
      else
        && (ops[0].Mint? && ops[0].nonce in full ==> ops[0].nonce in swept)
        && NoMintOnSwept(Apply(full, ops[0]), Apply(swept, ops[0]), ops[1..])
  }

  lemma SkipSweep(full: Table, swept: Table, ops: seq<Op>)
    requires ops != [] && ops[0].Sweep?
    ensures Results(swept, ops) == Results(Apply(swept, ops[0]), ops[1..])
    ensures WithoutSweeps(ops) == WithoutSweeps(ops[1..])
  {
  }

  lemma TakeStep(full: Table, swept: Table, ops: seq<Op>)
    requires ops != [] && !ops[0].Sweep?
    ensures Results(swept, ops) == [Hits(swept, ops[0])] + Results(Apply(swept, ops[0]), ops[1..])
    ensures Results(full, WithoutSweeps(ops)) ==
            [Hits(full, ops[0])] + Results(Apply(full, ops[0]), WithoutSweeps(ops[1..]))
  {
    assert WithoutSweeps(ops) == [ops[0]] + WithoutSweeps(ops[1..]);
    assert WithoutSweeps(ops)[1..] == WithoutSweeps(ops[1..]);
  }

  lemma SameHead(a: bool, b: bool, s: seq<bool>, t: seq<bool>)
    ensures [a] + s == [b] + t <==> a == b && s == t
  {
    if [a] + s == [b] + t {
      assert ([a] + s)[0] == a && ([b] + t)[0] == b;
      assert ([a] + s)[1..] == s && ([b] + t)[1..] == t;
    }
  }

  lemma {:induction false} RunIgnoresSweepsIff(full: Table, swept: Table, now: Time, ops: seq<Op>)
    requires LessExpired(full, swept, now) && Clocked(now, ops)
    ensures Results(swept, ops) == Results(full, WithoutSweeps(ops)) <==> NoMintOnSwept(full, swept, ops)
    decreases |ops|
  {
    if ops != [] {
      var op, rest := ops[0], ops[1..];
      if op.Sweep? {
        SkipSweep(full, swept, ops);
        RunIgnoresSweepsIff(full, Apply(swept, op), op.now, rest);
      } else {
        TakeStep(full, swept, ops);
        SameHead(Hits(swept, op), Hits(full, op), Results(Apply(swept, op), rest),
            Results(Apply(full, op), WithoutSweeps(rest)));
        if op.Mint? && op.nonce in full && op.nonce !in swept {
          assert Hits(swept, op) && !Hits(full, op);
        } else {
          StepIgnoresExpired(full, swept, now, op);
          RunIgnoresSweepsIff(Apply(full, op), Apply(swept, op), if op.Mint? then now else op.now, rest);
        }
      }
    }
  }

  /**
   With a clock that does not run backwards, cleanup sweeps change no result of a run if and only if no
   mint in it names a nonce whose expired row a sweep has taken.
   */
  lemma SweepsAreInvisibleIff(ops: seq<Op>, start: Time)
    requires Clocked(start, ops)
    ensures Results(map[], ops) == Results(map[], WithoutSweeps(ops)) <==> NoMintOnSwept(map[], map[], ops)
  {
    RunIgnoresSweepsIff(map[], map[], start, ops);
  }

  /** No nonce is minted twice, none of the given ones at all. */
  predicate MintsDistinct(ops: seq<Op>, taken: set<Nonce>)
    decreases |ops|
  {
    ops != [] ==>
      && (ops[0].Mint? ==> ops[0].nonce !in taken)
      && MintsDistinct(ops[1..], if ops[0].Mint? then taken + {ops[0].nonce} else taken)
  }

  lemma {:induction false} DistinctMintsMeetNothing(full: Table, swept: Table, ops: seq<Op>, taken: set<Nonce>)
    requires full.Keys <= taken && MintsDistinct(ops, taken)
    ensures NoMintOnSwept(full, swept, ops)
    decreases |ops|
  {
    if ops != [] {
      var op := ops[0];
      if op.Sweep? {
        DistinctMintsMeetNothing(full, Apply(swept, op), ops[1..], taken);
      } else {
        DistinctMintsMeetNothing(Apply(full, op), Apply(swept, op), ops[1..], if op.Mint?
            then taken + {op.nonce} else taken);
      }
    }
  }

  /** The service draws 256-bit random nonces: while none repeats, sweeps anywhere in a run change no result. */
  lemma SweepsAreInvisible(ops: seq<Op>, start: Time)
    requires Clocked(start, ops) && MintsDistinct(ops, {})
    ensures Results(map[], ops) == Results(map[], WithoutSweeps(ops))
  {
    DistinctMintsMeetNothing(map[], map[], ops, {});
    SweepsAreInvisibleIff(ops, start);
  }

  /**
   For every row a sweep removes: minting its nonce again is refused by the primary key while the
   expired row is there and accepted once it is swept, and the redemption that follows differs with it.
   */
  lemma RemintSeesSweep(t: Table, n: Nonce, d: Domain, now: Time)
    requires n in t && t[n].expiresAt <= now
    ensures var again := [Mint(n, d, now + 1), Consume(n, d, now)];
            && Results(t, again) == [false, false]
            && Results(Apply(t, Sweep(now)), again) == [true, true]
  {
    var mint, consume := Mint(n, d, now + 1), Consume(n, d, now);
    var swept := Apply(t, Sweep(now));
    TwoResults(t, mint, consume);
    TwoResults(swept, mint, consume);
    assert Apply(t, mint) == t;
    assert Apply(swept, mint)[n] == Row(d, now + 1);
  }

  lemma TwoResults(t: Table, a: Op, b: Op)
    requires !a.Sweep? && !b.Sweep?
    ensures Results(t, [a, b]) == [Hits(t, a), Hits(Apply(t, a), b)]
  {
    var ops := [a, b];
    assert ops[1..] == [b] && [b][1..] == [];
    assert Results(Apply(t, a), [b]) == [Hits(Apply(t, a), b)];
  }

  class NonceStore {
    var rows: Table

    constructor ()
      ensures rows == map[]
    {
      rows := map[];
    }

    /** `create_nonce`; the primary key makes a second insert fail. */
    method CreateNonce(n: Nonce, d: Domain, expiresAt: Time) returns (created: bool)
      modifies this
      ensures created == Hits(old(rows), Mint(n, d, expiresAt)) && rows == Apply(old(rows), Mint(n, d, expiresAt))
      ensures created <==> n !in old(rows)
      ensures rows == if created then old(rows)[n := Row(d, expiresAt)] else old(rows)
    {
      created := n !in rows;
      if created {
        rows := rows[n := Row(d, expiresAt)];
      }
    }

    /** `consume_nonce`: `delete ... where nonce = .. and domain = .. and expires_at > .. returning ..`. */
    method ConsumeNonce(n: Nonce, d: Domain, now: Time) returns (row: Option<Row>)
      modifies this
      ensures row.Some? == Hits(old(rows), Consume(n, d, now)) && rows == Apply(old(rows), Consume(n, d, now))
      ensures row.Some? <==> n in old(rows) && old(rows)[n].domain == d && now < old(rows)[n].expiresAt
      ensures row.Some? ==> row.value == old(rows)[n] && rows == old(rows) - {n}
      ensures row.None? ==> rows == old(rows)
    {
      if n in rows && rows[n].domain == d && rows[n].expiresAt > now {
        row := Some(rows[n]);
        rows := rows - {n};
      } else {
        row := None;
      }
    }

    /** `delete_expired_nonces`: returns how many rows went. */
    method DeleteExpiredNonces(now: Time) returns (deleted: nat)
      modifies this
      ensures rows == Apply(old(rows), Sweep(now)) && deleted == |old(rows)| - |rows|
      ensures forall n :: n in rows <==> n in old(rows) && now < old(rows)[n].expiresAt
      ensures forall n :: n in rows ==> rows[n] == old(rows)[n]
    {
      var kept := map n | n in rows && rows[n].expiresAt > now :: rows[n];
      var gone := set n | n in rows && rows[n].expiresAt <= now;
      assert rows.Keys == kept.Keys + gone && kept.Keys !! gone;
      deleted := |gone|;
      rows := kept;
    }
  }
}
