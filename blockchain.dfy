/** A model of the `BlockChain` ledger class: an ordered chain of sealed blocks
    and a pool of pending transactions, with `new_block` sealing the pool into
    a block appended to the chain.

    The file calls a digest method `self.hash` that it does not define; the
    model assumes one exists elsewhere and takes it as an arbitrary function
    `Block -> string` fixed when the ledger is created. The wall-clock reading
    (`time()`) is an opaque `real` passed to each seal. */
module Blockchain {

  /** A pending or sealed transaction. `new_block` never looks inside one; the
      fields are the usual sender, recipient and amount of a transfer. */
  datatype Transaction = Transaction(sender: string, recipient: string, amount: int)

  /** A sealed block record: the dictionary built by `new_block`. */
  datatype Block = Block(
    index: int,
    timestamp: real,
    transactions: seq<Transaction>,
    proof: int,
    previousHash: string)

  /** The one failure `new_block` can raise once a digest method exists:
      `self.chain[-1]` on an empty chain. */
  datatype Error = IndexError

  datatype Result<T> = Ok(value: T) | Err(error: Error)

  /** The ledger's two fields, as a value. */
  datatype Ledger = Ledger(chain: seq<Block>, pending: seq<Transaction>)

  /** What a successful seal produces: the new ledger and the block it returned. */
  datatype Sealing = Sealing(ledger: Ledger, block: Block)

  /** A caller's step: append `added` to the public pool attribute, then call
      `new_block(proof, previous_hash)` at time `timestamp`. */
  datatype Call = Call(added: seq<Transaction>, proof: int, previousHash: Option<string>, timestamp: real)

  datatype Option<T> = None | Some(value: T)

  function Last(chain: seq<Block>): (b: Block)
    requires chain != []
    ensures b in chain
  {
    chain[|chain| - 1]
  }

  /** Python truthiness of the `previous_hash` argument: `None` and the empty
      string are false, every other string is true. */
  predicate Truthy(previousHash: Option<string>) {
    previousHash.Some? && previousHash.value != ""
  }

  /** `previous_hash or self.hash(self.chain[-1])`: the argument itself when it
      is truthy, otherwise the digest of the last block, which raises
      `IndexError` when the chain is empty. */
  function ResolvePreviousHash(chain: seq<Block>, previousHash: Option<string>, hash: Block -> string): (r: Result<string>)
    ensures r.Ok? <==> Truthy(previousHash) || chain != []
    ensures r.Err? ==> r.error == IndexError
    ensures Truthy(previousHash) ==> r == Ok(previousHash.value)
    ensures !Truthy(previousHash) && chain != [] ==> r == Ok(hash(Last(chain)))
  {
    if Truthy(previousHash) then Ok(previousHash.value)
    else if chain == [] then Err(IndexError)
    else Ok(hash(Last(chain)))
  }

  /** `new_block` on a ledger value: the new block takes the 1-based index
      `|chain| + 1`, a snapshot of the pending pool, the given proof and the
      resolved previous hash; the pool is emptied and the block appended.
      When the previous hash cannot be resolved nothing changes. */
  function Seal(l: Ledger, proof: int, previousHash: Option<string>, timestamp: real, hash: Block -> string): (r: Result<Sealing>)
    ensures r.Ok? <==> Truthy(previousHash) || l.chain != []
    ensures r.Err? ==> r.error == IndexError
    ensures r.Ok? ==>
      var b := r.value.block;
      && r.value.ledger.chain == l.chain + [b]
      && r.value.ledger.pending == []
      && b.index == |l.chain| + 1
      && b.timestamp == timestamp
      && b.transactions == l.pending
      && b.proof == proof
      && (Truthy(previousHash) ==> b.previousHash == previousHash.value)
      && (!Truthy(previousHash) ==> b.previousHash == hash(Last(l.chain)))
  {
    match ResolvePreviousHash(l.chain, previousHash, hash)
    case Err(e) => Err(e)
    case Ok(link) =>
      var b := Block(|l.chain| + 1, timestamp, l.pending, proof, link);
      Ok(Sealing(Ledger(l.chain + [b], []), b))
  }

  /** The caller's write to the public pool attribute that precedes a call. */
  function Deposit(l: Ledger, c: Call): Ledger {
    Ledger(l.chain, l.pending + c.added)
  }

  /** One caller step; a `new_block` that raises leaves the ledger as the
      deposit left it. */
  function Step(l: Ledger, c: Call, hash: Block -> string): Ledger {
    var d := Deposit(l, c);
    match Seal(d, c.proof, c.previousHash, c.timestamp, hash)
    case Ok(s) => s.ledger
    case Err(_) => d
  }

  /** The ledger after each step in turn. */
  function Replay(l: Ledger, calls: seq<Call>, hash: Block -> string): (r: Ledger)
    decreases |calls|
  {
    if calls == [] then l else Replay(Step(l, calls[0], hash), calls[1..], hash)
  }

  /** Every transaction the calls add to the pool, in order. */
  function AllAdded(calls: seq<Call>): (ts: seq<Transaction>)
  {
    if calls == [] then [] else calls[0].added + AllAdded(calls[1..])
  }

  /** Every block's `index` is its 1-based position in the chain. */
  ghost predicate Indexed(chain: seq<Block>) {
    forall i :: 0 <= i < |chain| ==> chain[i].index == i + 1
  }

  /** Every block after the first records the digest of its predecessor. */
  ghost predicate Linked(chain: seq<Block>, hash: Block -> string) {
    forall i :: 1 <= i < |chain| ==> chain[i].previousHash == hash(chain[i - 1])
  }

  /** The transactions of all blocks of the chain, in chain order. */
  function AllTransactions(chain: seq<Block>): (ts: seq<Transaction>)
  {
    if chain == [] then [] else AllTransactions(chain[..|chain| - 1]) + Last(chain).transactions
  }

  lemma AllTransactionsAppend(chain: seq<Block>, b: Block)
    ensures AllTransactions(chain + [b]) == AllTransactions(chain) + b.transactions
  {
    assert (chain + [b])[..|chain|] == chain;
  }

  /** Sealing keeps the chain indexed by position. */
  lemma SealKeepsIndexed(l: Ledger, proof: int, previousHash: Option<string>, timestamp: real, hash: Block -> string)
    requires Indexed(l.chain)
    requires Seal(l, proof, previousHash, timestamp, hash).Ok?
    ensures Indexed(Seal(l, proof, previousHash, timestamp, hash).value.ledger.chain)
  {
  }

  /** Sealing neither loses nor duplicates a transaction: what was in the blocks
      and the pool before is, in the same order, what is in them afterwards. */
  lemma SealConservesTransactions(l: Ledger, proof: int, previousHash: Option<string>, timestamp: real, hash: Block -> string)
    requires Seal(l, proof, previousHash, timestamp, hash).Ok?
    ensures var l' := Seal(l, proof, previousHash, timestamp, hash).value.ledger;
      AllTransactions(l'.chain) + l'.pending == AllTransactions(l.chain) + l.pending
  {
    var s := Seal(l, proof, previousHash, timestamp, hash).value;
    AllTransactionsAppend(l.chain, s.block);
  }

  /** The sealed chain is linked exactly when the old chain was and the new
      block's previous hash is the digest of the old last block. */
  lemma SealLinkedIff(l: Ledger, proof: int, previousHash: Option<string>, timestamp: real, hash: Block -> string)
    requires Seal(l, proof, previousHash, timestamp, hash).Ok?
    ensures var s := Seal(l, proof, previousHash, timestamp, hash).value;
      Linked(s.ledger.chain, hash) <==>
        Linked(l.chain, hash) && (l.chain != [] ==> s.block.previousHash == hash(Last(l.chain)))
  {
    var s := Seal(l, proof, previousHash, timestamp, hash).value;
    var c := s.ledger.chain;
    assert c[..|l.chain|] == l.chain;
    if Linked(c, hash) {
      forall i | 1 <= i < |l.chain| ensures l.chain[i].previousHash == hash(l.chain[i - 1]) {
        assert c[i] == l.chain[i] && c[i - 1] == l.chain[i - 1];
      }
      if l.chain != [] {
        assert c[|l.chain|] == s.block;
      }
    }
  }

  /** Without a (truthy) `previous_hash` a seal always keeps the chain linked. */
  lemma SealFallbackKeepsLinked(l: Ledger, proof: int, previousHash: Option<string>, timestamp: real, hash: Block -> string)
    requires Linked(l.chain, hash)
    requires !Truthy(previousHash) && l.chain != []
    ensures Seal(l, proof, previousHash, timestamp, hash).Ok?
    ensures Linked(Seal(l, proof, previousHash, timestamp, hash).value.ledger.chain, hash)
  {
    SealLinkedIff(l, proof, previousHash, timestamp, hash);
  }

  /** Replaying calls only appends to the chain. */
  lemma {:induction false} ReplayAppendOnly(l: Ledger, calls: seq<Call>, hash: Block -> string)
    ensures var r := Replay(l, calls, hash);
      |l.chain| <= |r.chain| <= |l.chain| + |calls| && r.chain[..|l.chain|] == l.chain
    decreases |calls|
  {
    if calls != [] {
      var l' := Step(l, calls[0], hash);
      assert |l.chain| <= |l'.chain| <= |l.chain| + 1 && l'.chain[..|l.chain|] == l.chain;
      ReplayAppendOnly(l', calls[1..], hash);
      var r := Replay(l', calls[1..], hash);
      assert r.chain[..|l.chain|] == r.chain[..|l'.chain|][..|l.chain|];
    }
  }

  /** A chain kept indexed by position stays so whatever calls are replayed. */
  lemma {:induction false} ReplayKeepsIndexed(l: Ledger, calls: seq<Call>, hash: Block -> string)
    requires Indexed(l.chain)
    ensures Indexed(Replay(l, calls, hash).chain)
    decreases |calls|
  {
    if calls != [] {
      var c := calls[0];
      var d := Deposit(l, c);
      if Seal(d, c.proof, c.previousHash, c.timestamp, hash).Ok? {
        SealKeepsIndexed(d, c.proof, c.previousHash, c.timestamp, hash);
      }
      ReplayKeepsIndexed(Step(l, c, hash), calls[1..], hash);
    }
  }

  /** Replayed calls neither lose, duplicate nor reorder a transaction: what
      the blocks and the pool hold at the end is what they held at the start
      followed by everything the calls added, in order. */
  lemma {:induction false} ReplayConservesTransactions(l: Ledger, calls: seq<Call>, hash: Block -> string)
    ensures var r := Replay(l, calls, hash);
      AllTransactions(r.chain) + r.pending == AllTransactions(l.chain) + l.pending + AllAdded(calls)
    decreases |calls|
  {
    if calls != [] {
      var c := calls[0];
      var d := Deposit(l, c);
      var l' := Step(l, c, hash);
      if Seal(d, c.proof, c.previousHash, c.timestamp, hash).Ok? {
        SealConservesTransactions(d, c.proof, c.previousHash, c.timestamp, hash);
      }
      assert AllTransactions(l'.chain) + l'.pending == AllTransactions(l.chain) + l.pending + c.added;
      ReplayConservesTransactions(l', calls[1..], hash);
      assert AllAdded(calls) == c.added + AllAdded(calls[1..]);
    }
  }

  /** A linked chain stays linked when no call passes a (truthy) `previous_hash`. */
  lemma {:induction false} ReplayFallbackKeepsLinked(l: Ledger, calls: seq<Call>, hash: Block -> string)
    requires Linked(l.chain, hash)
    requires forall k :: 0 <= k < |calls| ==> !Truthy(calls[k].previousHash)
    ensures Linked(Replay(l, calls, hash).chain, hash)
    decreases |calls|
  {
    if calls != [] {
      var c := calls[0];
      var d := Deposit(l, c);
      assert !Truthy(calls[0].previousHash);
      if Seal(d, c.proof, c.previousHash, c.timestamp, hash).Ok? {
        SealLinkedIff(d, c.proof, c.previousHash, c.timestamp, hash);
      }
      ReplayFallbackKeepsLinked(Step(l, c, hash), calls[1..], hash);
    }
  }

  /** On a non-empty chain no call raises, so each one adds exactly one block. */
  lemma {:induction false} ReplayNonEmptyGrowsByCalls(l: Ledger, calls: seq<Call>, hash: Block -> string)
    requires l.chain != []
    ensures |Replay(l, calls, hash).chain| == |l.chain| + |calls|
    decreases |calls|
  {
    if calls != [] {
      ReplayNonEmptyGrowsByCalls(Step(l, calls[0], hash), calls[1..], hash);
    }
  }

  /** From a freshly constructed ledger: when a seeding call with a truthy
      `previous_hash` is followed by calls that all fall back to the digest of
      the last block, the blocks are indexed 1, 2, ..., linked, one per call,
      and together with the final pool hold every added transaction in order. */
  lemma GenesisThenFallback(genesis: Call, calls: seq<Call>, hash: Block -> string)
    requires Truthy(genesis.previousHash)
    requires forall k :: 0 <= k < |calls| ==> !Truthy(calls[k].previousHash)
    ensures var r := Replay(Ledger([], []), [genesis] + calls, hash);
      && Indexed(r.chain) && Linked(r.chain, hash) && |r.chain| == 1 + |calls|
      && AllTransactions(r.chain) + r.pending == genesis.added + AllAdded(calls)
  {
    var all := [genesis] + calls;
    var l' := Step(Ledger([], []), genesis, hash);
    assert all[1..] == calls;
    assert Replay(Ledger([], []), all, hash) == Replay(l', calls, hash);
    ReplayKeepsIndexed(l', calls, hash);
    ReplayFallbackKeepsLinked(l', calls, hash);
    ReplayNonEmptyGrowsByCalls(l', calls, hash);
    ReplayConservesTransactions(Ledger([], []), all, hash);
    assert AllAdded(all) == genesis.added + AllAdded(calls);
  }

  /** The ledger object: `chain` and `current_transactions` are updated in place
      by `NewBlock`; `hash` stands for the digest method. */
  class BlockChain {
    var currentTransactions: seq<Transaction>
    var chain: seq<Block>
    const hash: Block -> string

    /** The ledger's fields as a value. */
    ghost function State(): Ledger
      reads this
    {
      Ledger(chain, currentTransactions)
    }

    /** The invariant kept by every chain built through `NewBlock`. */
    ghost predicate Valid()
      reads this
    {
      Indexed(chain)
    }

    /** `__init__`: an empty pool and an empty chain. */
    constructor (hash: Block -> string)
      ensures currentTransactions == [] && chain == []
      ensures this.hash == hash
      ensures Valid()
    {
      currentTransactions := [];
      chain := [];
      this.hash := hash;
    }

    /** `new_block(proof, previous_hash)`, sealing the pending pool at time
        `timestamp`. Raises `IndexError`, changing nothing, when `previousHash`
        is falsy and the chain is empty. */
    method NewBlock(proof: int, previousHash: Option<string>, timestamp: real) returns (r: Result<Block>)
      modifies this
      ensures r.Ok? <==> Truthy(previousHash) || old(chain) != []
      ensures r.Ok? ==> Seal(old(State()), proof, previousHash, timestamp, hash) == Ok(Sealing(State(), r.value))
      ensures r.Ok? ==>
        && chain == old(chain) + [r.value]
        && currentTransactions == []
        && r.value.index == |old(chain)| + 1
        && r.value.transactions == old(currentTransactions)
        && r.value.proof == proof
        && r.value.timestamp == timestamp
        && r.value.previousHash == (if Truthy(previousHash) then previousHash.value else hash(Last(old(chain))))
      ensures r.Err? ==> r.error == IndexError && chain == old(chain) && currentTransactions == old(currentTransactions)
      ensures old(Valid()) ==> Valid()
    {
      var link := ResolvePreviousHash(chain, previousHash, hash);
      if link.Err? {
        return Err(link.error);
      }
      var block := Block(|chain| + 1, timestamp, currentTransactions, proof, link.value);
      currentTransactions := [];
      chain := chain + [block];
      r := Ok(block);
    }
  }

  /** A client of the class: seed a block, place three transactions in the
      pool, seal them, then add a fourth to the new pool. */
  method SealScenario(hash: Block -> string, t1: Transaction, t2: Transaction, t3: Transaction, t4: Transaction)
  {
    var ledger := new BlockChain(hash);
    var genesis := ledger.NewBlock(100, Some("1"), 0.0);
    assert genesis.Ok? && genesis.value.index == 1;
    ledger.currentTransactions := ledger.currentTransactions + [t1, t2, t3];
    var sealed := ledger.NewBlock(35293, None, 1.0);
    assert sealed.Ok?;
    var b := sealed.value;
    assert b.index == 2 && b.transactions == [t1, t2, t3] && b.previousHash == hash(genesis.value);
    assert ledger.currentTransactions == [];
    ledger.currentTransactions := ledger.currentTransactions + [t4];
    assert ledger.chain[1].transactions == [t1, t2, t3] && ledger.currentTransactions == [t4];
    assert ledger.Valid();
  }
}
