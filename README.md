# BlockChain ledger model

A Dafny model of the `BlockChain` class of `blockchain.py`. The class is a ledger with two fields:

- `chain`: the ordered list of sealed blocks.
- `current_transactions`: the pool of pending transactions.

Its one operation, `new_block(proof, previous_hash=None)`, does four things:

- It seals the pool into a block record whose `index` is `len(chain) + 1`.
- It stores the given `proof`.
- It sets `previous_hash` to the argument when that is truthy, or else to the digest of the last block.
- It empties the pool and appends the block to the chain.

The model has two layers, both in module `Blockchain` (`blockchain.dfy`):

- **Values.** `Ledger` holds the two fields as a value, and `Seal` is `new_block` applied to it. `Replay` applies a sequence of calls in order. Each step of `Replay` first appends the caller's transactions to the pool (the public attribute) and then calls `new_block`. Lemmas prove that the chain only grows at its end, by exactly one block per call once it is non-empty. Blocks stay indexed by their 1-based position. No transaction is lost, duplicated or reordered. The chain stays linked by digests when callers rely on the fallback.
- **The object.** `BlockChain` is a class whose fields `chain` and `currentTransactions` are updated in place. Its method `NewBlock` is proved against `Seal`, and it keeps the invariant `Valid()` (the indexing).

Two things the source reads from outside the module are passed in:

- **The digest.** `blockchain.py` calls `self.hash` but does not define it. The model assumes a digest method defined elsewhere and takes it as an arbitrary function `Block -> string`, supplied to the constructor and fixed for the ledger's lifetime. For that reason the constructor takes this one argument, where `__init__` takes none.
- **The clock.** `time()` becomes an opaque `timestamp: real` parameter of each seal.

Python truthiness of `previous_hash` is modelled on `Option<string>`: `None` and `""` are false, and every other string is true.

Under that assumption, on an empty chain with a falsy `previous_hash`, `self.chain[-1]` raises `IndexError`. Python builds the whole block dictionary before it changes either field, so the exception leaves the object unchanged. The model returns that case as `Err(IndexError)` with the state unchanged, rather than forbidding it with a precondition.

## Model

| member | source | states |
|---|---|---|
| Blockchain.BlockChain.constructor | blockchain.py:7-9 | a new ledger has an empty pending pool, an empty chain, and satisfies the indexing invariant |
| Blockchain.BlockChain.NewBlock | blockchain.py:11-22 | fails with IndexError, changing nothing, exactly when previous_hash is falsy and the chain is empty; otherwise the chain grows by exactly the returned block (earlier blocks unchanged), the block has index old length + 1, the old pool's contents in order, the given proof and timestamp, and previous_hash per Python `or`; the pool is empty afterwards; the indexing invariant is preserved |
| Blockchain.ResolvePreviousHash | blockchain.py:17 | `previous_hash or self.hash(self.chain[-1])`: a truthy argument is used verbatim, otherwise the digest of the last block, and IndexError exactly when neither exists |
| Blockchain.Seal | blockchain.py:11-22 | value-level new_block: it succeeds exactly when a previous hash is available; the new chain is the old one plus the new block; the new block's index is the 1-based next position; its transactions are a snapshot of the pool; its proof is the argument; the pool is emptied |
| Blockchain.SealKeepsIndexed | blockchain.py:13-21 | if every block's index equals its 1-based position before a seal, that still holds after it |
| Blockchain.SealConservesTransactions | blockchain.py:15-21 | a seal moves the pool into the chain: the chain's transactions followed by the pool's are the same sequence before and after |
| Blockchain.SealLinkedIff | blockchain.py:17-21 | the chain after a seal has every block recording its predecessor's digest exactly when the old chain did and the new block's previous_hash is the digest of the old last block |
| Blockchain.SealFallbackKeepsLinked | blockchain.py:17 | a seal with a falsy previous_hash on a non-empty linked chain succeeds and keeps it linked |
| Blockchain.ReplayAppendOnly | blockchain.py:21 | across any sequence of calls the old chain remains a prefix, and the chain grows by at most one block per call |
| Blockchain.ReplayKeepsIndexed | blockchain.py:13-21 | across any sequence of calls an indexed chain stays indexed |
| Blockchain.ReplayConservesTransactions | blockchain.py:15-21 | across any sequence of steps, the blocks' transactions followed by the pool are the starting ones followed by every transaction the steps added: none is lost, duplicated or reordered |
| Blockchain.ReplayFallbackKeepsLinked | blockchain.py:17-21 | across calls that all pass a falsy previous_hash, a linked chain stays linked |
| Blockchain.ReplayNonEmptyGrowsByCalls | blockchain.py:17-21 | on a non-empty chain no call raises, so each call adds exactly one block |
| Blockchain.GenesisThenFallback | blockchain.py:7-22 | from a new ledger, a seeding call with a truthy previous_hash followed by n calls with falsy ones gives n + 1 blocks, indexed 1..n+1, each recording its predecessor's digest, and the blocks and final pool hold every added transaction in order |

`SealScenario` is a client of the class. It seeds a block and places three transactions straight into the pool, the way a caller can assign the public attribute. It then seals them and adds a fourth transaction to the new pool. Its assertions about each step are proved.

## Left out

- `self.hash`: `blockchain.py` does not define it, so as written every call with a falsy `previous_hash` fails with `AttributeError` when `self.hash` is looked up (before `self.chain[-1]` is evaluated). The model assumes a digest method defined elsewhere, as an arbitrary function; only under that assumption is the empty-chain failure `IndexError`. Its canonical serialization and SHA-256 digest are a foreign library call and are not modelled.
- `time()`: it reads the wall clock as a float. The timestamp is an opaque `real` input with no properties.
- Aliasing: in the source, the block's `transactions` is the same list object as the old pool. The returned block is the same dictionary as the chain's last element. `self.chain.append(block)` extends the chain list in place, so a caller holding a reference to `bc.chain` sees the new block, whereas a Dafny caller holding the old `chain` value does not. The model works on values, so mutation or observation through such shared references is not captured.
- `previous_hash` values that are not strings, such as an integer: the model takes `None` or a string.
- `Transaction`: `blockchain.py` never defines its shape and `new_block` never looks inside one. The fields sender, recipient and amount are the ones the wider application uses, with `amount` narrowed to `int`.
- Transaction submission, proof-of-work, chain validation, consensus, the peer registry and the HTTP routes: `blockchain.py` does not define them. Adding transactions to the pool appears only as a direct write to the field: the `added` part of a `Replay` step and `SealScenario`.
- Concurrency and locking: the class is single-threaded and has none.
