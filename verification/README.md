# A verified model of the Erigon node core

A Dafny model of the parts of this Erigon fork where most can go wrong quietly, with proofs that hold for
every input, every run or every interleaving. Nothing here executes the node; the model restates its logic and
the verifier checks the claims. `dafny verify dfyconfig.toml` checks the whole project.

| file | what it models |
|---|---|
| `Basics.dfy`, `BigEndian.dfy` | shared definitions; shortest big-endian numbers |
| `RlpSpec.dfy` | RLP as mathematics: recursive encoding, decoding, and that they are inverse |
| `RlpRaw.dfy` | `rlp/raw.go`, `rlp/iterator.go`: splitting, counting and iterating without a stream |
| `RlpEncode.dfy` | `rlp/encode.go`: the two-phase `encbuf`, `encReader` with its shared header buffer, `putint` and friends |
| `RlpStream.dfy` | `rlp/decode.go`: the `Stream` object with its stack of open lists and its input limit |
| `Ledger.dfy`, `Transition.dfy`, `Block.dfy` | `core/state_transition.go`, `core/gaspool.go`, `core/state_processor.go`, `core/blockchain.go`: gas and wei through a message and through a block |
| `Feed.dfy` | `event/feed.go`: subscriptions and broadcasts, over every interleaving |
| `Relocation.dfy` | `migrations/txs_begin_end.go`: moving every block's transactions inside one table |
| `Multiplex.dfy` | `p2p/peer.go`: matching sub-protocols and sharing out message codes |
| `PeerWrite.dfy` | `p2p/peer.go`: the goroutines of one peer and its write token, over every interleaving |
| `ExpHeap.dfy`, `Dial.dfy` | `p2p/util.go`, `p2p/dial.go`: the expiry heap and the dial scheduler |
| `Admission.dfy` | `p2p/server.go`: the peer admission loop, together with the dialer |
| `AncestorCache.dfy` | `core/evm.go`: the block hash lookup and its cache |
| `PrefixWalk.dfy` | `ethdb/kv_util.go`: the bit-prefix scan |

## Main results

- **RLP has one encoding per value.** `RlpStream.DecodeBytes` accepts `b` as `v` if and only if `b` is the
  recursive encoding of `v`; `RlpEncode.EncodeToBytes` produces exactly that encoding from its two-phase buffer;
  `RlpEncode.ReadWith` gets the same bytes out of the reader for any read sizes although header pieces alias one
  buffer; and `RlpStream.ReadStringTwice` and `RlpStream.ReadUintTwice` run the two independent readers on one input
  and get the same result and the same rest.
- **Streams stay inside their lists.** `RlpStream.AnyRun`: after any sequence of operations every open list has
  `pos <= size`, fits in its parent, and a limited stream has not consumed past its limit. Each operation is exact
  for a byte slice, for a longer reader behind a limit and for a reader without one.
- **Gas and wei are conserved**, per message (`Transition.StateTransition.TransitionDb`) and per block
  (`Block.BlockGas`, `Block.BlockBurns`), with the exact amount burned, and with the exact condition where the code
  does not. `Block.ExecuteBlock` and `Block.AcceptedBlock` say exactly when a block is accepted.
- **Concurrency**: `Feed.EveryInterleaving`, `PeerWrite.OneWriteAtATime`, `PeerWrite.SendsNeverBlock`,
  `PeerWrite.EachByItself`, `PeerWrite.WaitingIsServed` and `PeerWrite.WindsDown` hold for every interleaving.
  `Feed.FeedObject.Send` runs the loops of `Send` on two slices of one array under any schedule, and
  `Feed.EventsTell` reads off the events alone what it delivered.
- **Long-running loops**: `Dial.DialScheduler.Loop` and `Admission.Server.Run` hold for every sequence of events.
- **Two peers agree** on the meaning of message codes (`Multiplex.BothEndsAgree`, `Multiplex.Exchange`).
- **Nothing is lost in place**: `Relocation.Db.Up`, `AncestorCache.HashFn.CallAll`, `PrefixWalk.Walk`.

## Where the code and the expected property differ

- A deposit message returns from the pre-check before the pool is charged, yet its unused gas is added back, and a
  failed one counts as using all its gas. `Transition.Drift` says from the message alone by how much pool and gas used
  grow together; after each transaction of a block they make up the limit exactly if nothing has drifted so far
  (`Block.LawIffNoDrift`), and `Block.OneDeposit` is a block where they do not.
- A dynamic-fee price is a 256-bit sum that can wrap. It is min(fee cap, base fee + tip) exactly when base fee plus
  tip is below 2^256 (`DynamicGasPriceExact`). With a base fee under the cap and two units of gas the fee and balance
  checks rule that out (`DynamicGasPriceIsCapped`). `DynamicGasPriceWraps` is a message with one unit of gas that
  passes both checks with a price of zero; it is refused later, for its intrinsic gas.
- A message with a fee cap under the base fee can pass when it is free, or when base fee checks are off and it offers
  no fees. Without a collector the total then falls by used gas times the fee cap and not by used gas times the base
  fee; a collector is credited with used gas times the base fee although less was paid, so the total rises. The
  expected law holds exactly if no gas was used or the cap covers the base fee (`WeiLaw`, `TransitionDb`).
  `FreeUnderBaseFee` and `UnpaidCollector` are messages where it does not.
- The migration moves the transaction sequence by looking at the last canonical header, so it only reaches the new
  end if that header has a body; `Relocation.Db.Up` states the exact condition and `HeadersAhead` an input.
- `Stream.Raw` accepts a one-byte string with a needless header, which `Split` and `Stream.Bytes` reject: the
  contracts give the exact condition of each, and `RlpStream.NeedlessByte` reads the bytes 0x81 0x00 with all three.
- `GetHashFn` also answers for numbers at or above the reference, without an error. For those below 2^64 - 1 it is the
  zero hash (`FreshAbove`). The number 2^64 - 1 stands for the block before the genesis block, so there it is the
  parent hash that the genesis header holds, or the zero hash if the chain is not complete (`FreshBeforeGenesis`). The
  cache stays transparent for all of these.

## Model

| member | source | states |
|---|---|---|
| `RlpSpec.HeaderParses` | rlp/encode.go:132-149 | every header written for a size below 2^64 is read back as that kind and size, with the right length, whatever follows |
| `RlpSpec.ParsedHeaderIsCanonical` | rlp/decode.go:998-1084 | a header that is accepted is the one that would be written for its kind and size |
| `RlpSpec.SplitString` | rlp/encode.go:198-206 | splitting an encoded string gives back its content and what followed |
| `RlpSpec.SplitList` | rlp/encode.go:224-237 | splitting an encoded list gives back its content and what followed |
| `RlpSpec.SplitJoins` | rlp/raw.go:47-55 | whatever splits is the encoding of the content followed by the rest |
| `RlpSpec.DecodeEncode` | rlp/decode.go:563-585 | decoding an encoding, followed by anything, gives the value and what followed |
| `RlpSpec.EncodeDecode` | rlp/decode.go:563-585 | an accepted input is the encoding of the decoded value followed by the rest |
| `RlpSpec.AcceptedIffEncoding` | rlp/decode.go:121-138 | an input is accepted as v if and only if it is the encoding of v |
| `RlpSpec.PrefixFree` | rlp/decode.go:121-138 | no encoding is a proper prefix of another |
| `RlpRaw.ShiftOrIsBigEndian` | rlp/raw.go:161-190 | the shift-and-or expressions compute the big-endian number |
| `RlpRaw.ReadKindParses` | rlp/raw.go:120-159 | `readKind` agrees with splitting on every input, errors included |
| `RlpRaw.SplitValueIsSplit` | rlp/raw.go:47-55 | `Split` is the mathematical split |
| `RlpRaw.SplitStringExact` | rlp/raw.go:57-66 | `SplitString` succeeds with (content, rest) if and only if the input is the encoded content followed by rest |
| `RlpRaw.SplitListExact` | rlp/raw.go:96-106 | the same for `SplitList` |
| `RlpRaw.SplitUint64Exact` | rlp/raw.go:70-92 | `SplitUint64` succeeds with (x, rest) if and only if the input is the encoding of the uint64 x followed by rest |
| `RlpRaw.AppendUint64Encodes` | rlp/raw.go:193-261 | `AppendUint64` appends the encoding of the number, and `IntSize` is its length |
| `RlpRaw.EncodeUintForm` | rlp/encode.go:208-219 | the three forms of an encoded integer |
| `RlpRaw.ElementsOfList` | rlp/iterator.go:42-51 | over a well-formed list the elements are exactly the encodings of its values, in order |
| `RlpRaw.CountValues` | rlp/raw.go:108-118 | the count is the number of elements, and it fails exactly when they cannot be split |
| `RlpRaw.NewListIterator` | rlp/iterator.go:26-39 | an iterator is made exactly for an encoded list, over its content |
| `RlpRaw.ListIterator.Next` | rlp/iterator.go:42-51 | each step takes exactly the next element off and consumes at least one byte; on an error it does not advance |
| `RlpRaw.IterateAll` | rlp/iterator.go:42-60 | iterating yields exactly the elements, and ends |
| `RlpEncode.StoreLow` | rlp/encode.go:698-755 | storing the low bytes of a number touches only those positions |
| `RlpEncode.PutInt` | rlp/encode.go:700-755 | `putint` writes the shortest big-endian form and returns its length |
| `RlpEncode.HeadSizeIsExact` | rlp/encode.go:132-138 | `headsize` is the length of the header that is written |
| `RlpEncode.PutHead` | rlp/encode.go:141-149 | `puthead` writes exactly the header, within bounds, and nothing else |
| `RlpEncode.SpliceLength` | rlp/encode.go:239-241 | string bytes plus header bytes are the exact length of the output |
| `RlpEncode.SpliceConcat` | rlp/encode.go:243-259 | splicing headers distributes over consecutive parts of the buffer |
| `RlpEncode.AddsList` | rlp/encode.go:224-237 | closing a list turns the output of its content into that of the list, whatever headers were recorded inside |
| `RlpEncode.EncBuf.EncodeStringHeader` | rlp/encode.go:188-196 | appends the string header |
| `RlpEncode.EncBuf.EncodeBytes` | rlp/encode.go:198-206 | appends the encoding of the string |
| `RlpEncode.EncBuf.EncodeUint64` | rlp/encode.go:208-219 | appends the encoding of the integer |
| `RlpEncode.EncBuf.ListEnd` | rlp/encode.go:229-237 | records the size of what was written since `List` and counts its header |
| `RlpEncode.EncBuf.Write` | rlp/encode.go:569-603 | writing a nested value adds exactly its recursive encoding to the output |
| `RlpEncode.EncBuf.ToBytes` | rlp/encode.go:243-259 | the output is the spliced buffer, of length `size()`, every write in bounds |
| `RlpEncode.EncodeToBytes` | rlp/encode.go:95-103 | the bytes are the recursive encoding of the value |
| `RlpEncode.EncReader.Next` | rlp/encode.go:319-350 | the next piece is the next part of the spliced output, although header pieces alias the scratch buffer |
| `RlpEncode.EncReader.Read` | rlp/encode.go:294-317 | a read delivers as much of the pending output as fits, in order, and reports the end exactly when nothing is left |
| `RlpEncode.ReadWith` | rlp/encode.go:294-350 | any sequence of buffer sizes delivers a prefix of the output as long as their sum allows |
| `RlpEncode.EncodeToReader` | rlp/encode.go:110-117 | the reader's output is the recursive encoding, and the size its length |
| `RlpEncode.EncodeInt` | rlp/encode.go:786-798 | writes the same bytes as the other integer encoders |
| `RlpStream.NoWrap` | rlp/decode.go:1118-1136 | for an open list the unsigned arithmetic on its position never wraps |
| `RlpStream.SkipSound` | rlp/decode.go:1118-1136 | consuming what `willRead` allows keeps every frame within its parent and the limit, also when the input ends early |
| `RlpStream.PushSound` | rlp/decode.go:849-866 | opening a list that fits keeps it |
| `RlpStream.PopSound` | rlp/decode.go:870-885 | closing a finished list keeps it |
| `RlpStream.NestedFrames` | rlp/decode.go:849-885 | in a sound stream each frame has pos <= size and parent.pos + child.size <= parent.size |
| `RlpStream.Stream.WillRead` | rlp/decode.go:1118-1136 | it agrees exactly when list and limit allow, and accounts for the bytes |
| `RlpStream.Stream.ReadByte` | rlp/decode.go:1107-1116 | reads the next byte exactly when it is allowed and there |
| `RlpStream.Stream.ReadFull` | rlp/decode.go:1086-1105 | reads exactly the next n bytes however the reader chunks them, or fails |
| `RlpStream.Stream.ReadUint` | rlp/decode.go:1060-1084 | reads a big-endian number, rejecting leading zeros |
| `RlpStream.Stream.ReadKind` | rlp/decode.go:998-1058 | reads a header as the specification does, on every input, reader and limit |
| `RlpStream.Stream.NextKind` | rlp/decode.go:965-996 | `Kind` succeeds exactly if a well-formed header is ahead whose value list and limit allow, and reports the end exactly at the end of the list |
| `RlpStream.Stream.Bytes` | rlp/decode.go:687-708 | succeeds exactly if a canonical string is ahead, returns its content and stops right behind it |
| `RlpStream.Stream.Raw` | rlp/decode.go:711-733 | succeeds exactly if a value with a well-formed header is there, and returns exactly the bytes it consumed although it rebuilds the header |
| `RlpStream.NeedlessByte` | rlp/decode.go:687-733 | bytes that `Raw` takes and `Bytes` and `SplitString` refuse |
| `RlpStream.RebuiltIsConsumed` | rlp/decode.go:711-733 | the rebuilt header is the one that was read |
| `RlpStream.Stream.Uint` | rlp/decode.go:742-773 | succeeds exactly if a canonical integer of the width is ahead, and returns it |
| `RlpStream.Stream.List` | rlp/decode.go:849-859 | opens exactly a list that is allowed, whether or not all of it is there, and continues with its content |
| `RlpStream.Stream.ListEnd` | rlp/decode.go:870-885 | closes exactly a finished list; the error says why not |
| `RlpStream.Stream.DecodeInterface` | rlp/decode.go:563-585 | decodes exactly what the specification decodes and leaves the same rest, for any reader and limit |
| `RlpStream.Stream.DecodeListSlice` | rlp/decode.go:345-358 | succeeds exactly if a list is ahead and all of its content decodes |
| `RlpStream.Stream.DecodeSliceElems` | rlp/decode.go:360-387 | decodes elements up to the end of the list, and succeeds exactly if all of it is there and decodes |
| `RlpStream.DecodeBytes` | rlp/decode.go:121-138 | accepts b as v if and only if b is the encoding of v, so trailing bytes are refused |
| `RlpStream.ReadersAgree` | rlp/raw.go:57-92 | what is a canonical string or integer ahead for the stream is what `SplitString` and `SplitUint64` accept, with the same content and rest |
| `RlpStream.ReadStringTwice` | rlp/decode.go:687-708 | `Stream.Bytes` and `SplitString` on one slice: both succeed or neither, same content, same rest, and exactly for an encoded string |
| `RlpStream.ReadUintTwice` | rlp/decode.go:742-773 | `Stream.Uint` and `SplitUint64` on one slice: both succeed or neither, same number, same rest, and exactly for an encoded uint64 |
| `RlpStream.AnyRun` | rlp/decode.go:849-996 | after any sequence of operations the stream's frames and limit are sound |
| `Ledger.CreditTotal` | core/state_transition.go:506-517 | a credit that stays below 2^256 in total raises the total by its amount |
| `Ledger.DebitTotal` | core/state_transition.go:200-239 | an affordable debit lowers the total by its amount |
| `Transition.PriceLessTip` | core/state_transition.go:460-467 | price less tip is min(fee cap, base fee), and the base fee exactly if the cap covers it |
| `Transition.DynamicGasPriceExact` | core/types/dynamic_fee_tx.go:378-408 | the price is min(cap, base fee + tip) exactly if base fee plus tip is below 2^256 |
| `Transition.DynamicGasPriceIsCapped` | core/types/dynamic_fee_tx.go:378-408 | a message that passes the checks with two or more units of gas and a cap over the base fee has that price |
| `Transition.DynamicGasPriceWraps` | core/types/dynamic_fee_tx.go:378-408 | a message that passes the fee and balance checks although the sum wrapped and its price is zero; it is refused for its intrinsic gas |
| `Transition.SettledTotal` | core/state_transition.go:445-479 | how a settled message changes the total, for a conserving EVM, collected or not, whatever its price |
| `Transition.WeiLaw` | core/state_transition.go:200-239 | how a London message priced by its cap changes the total; it burns used gas times base fee, or nothing when fees are collected, exactly if the cap covers the base fee or no gas was used |
| `Transition.UnpaidCollector` | core/state_transition.go:475-479 | a message that pays nothing and for which the collector is credited all the same |
| `Transition.FreeUnderBaseFee` | core/state_transition.go:298-303 | a free message that burns less than the base fee |
| `Transition.BurnIsBaseFee` | core/state_transition.go:460-479 | burning at min(cap, base fee) is burning at the base fee exactly if the cap covers it or no gas was used |
| `Transition.GasPool.AddGas` | core/gaspool.go:29-35 | adds, and panics exactly on overflow |
| `Transition.GasPool.SubGas` | core/gaspool.go:39-45 | subtracts exactly if there is enough |
| `Transition.StateTransition.BuyGas` | core/state_transition.go:200-239 | succeeds exactly if the sender can afford the worst case and the pool has the gas; then charges both |
| `Transition.StateTransition.PreCheck` | core/state_transition.go:254-305 | a message is accepted exactly if it passes the nonce, sender, fee, balance and pool checks; a refused one has changed nothing, and its error is the first reason |
| `Transition.StateTransition.AddRefund` | core/state_transition.go:506-512 | the refund is the counter, or else the most that a fifth or a half of the gas used allows |
| `Transition.StateTransition.RefundGas` | core/state_transition.go:506-521 | the rest goes back to the sender at the price and to the pool |
| `Transition.StateTransition.PayFees` | core/state_transition.go:460-479 | the tip goes to the producer and, if configured, the base fee to the collector |
| `Transition.StateTransition.InnerTransition` | core/state_transition.go:351-504 | the whole new world of a message: pool, balances, nonces, gas used, failure, or the error and what had happened before it |
| `Transition.StateTransition.TransitionDb` | core/state_transition.go:307-349 | when a message is accepted, check by check; the gas it uses with the capped refund; nonces and failure flag; that pool and gas used are conserved but for a drift known beforehand; how the total changes and exactly when by the burned fee |
| `Transition.AcceptedExactly` | core/state_transition.go:254-305 | acceptance is the conjunction of the checks |
| `Transition.GasSettled` | core/state_transition.go:445-454 | the gas used is the EVM's less the refund counter, capped to a fifth from London on and to a half before |
| `Transition.PoolLaw` | core/state_transition.go:506-521 | pool and gas used change together by the drift, and what the pool is after each error |
| `Transition.TotalLaw` | core/state_transition.go:445-479 | the change of the total over a whole message, with the exact condition for the burn |
| `Transition.AfterRunAccounts` | core/state_transition.go:455-521 | account by account: unused gas to the sender at the price, the tip to the producer, the base fee to the collector |
| `Block.ApplyTransaction` | core/state_processor.go:35-94 | the world, the counter and the receipt move together, and an error is the message's |
| `Block.CumulativeSnoc` | core/state_processor.go:59-81 | a receipt with the running sum extends the running sums |
| `Block.CumulativeExact` | core/state_processor.go:59-81 | without overflow the receipts hold the exact prefix sums |
| `Block.NoDrift` | core/state_transition.go:254-267 | only deposits drift |
| `Block.LawIffNoDrift` | core/blockchain.go:223-302 | after a transaction pool, gas used and gas lost make up the limit exactly if nothing has drifted so far |
| `Block.ExecuteBlock` | core/blockchain.go:223-302 | the transactions are applied in order up to the first fatal error; receipts and rejected ones are exactly theirs; the block's error is that error, or the gas mismatch exactly if all were applied |
| `Block.AcceptedBlock` | core/blockchain.go:291-302 | a block is accepted exactly if every transaction is applied and the gas is that of the header; a stateless one unless the pool overflows |
| `Block.BlockGas` | core/blockchain.go:223-302 | for every block: pool, gas used and gas lost make up limit and drift after each transaction, receipts are prefix sums, nothing panics below 2^64 |
| `Block.BlockBurns` | core/blockchain.go:223-302 | an accepted block of paying messages burns the header's gas at the base fee, or nothing if it is collected |
| `Block.Tallied` | core/blockchain.go:275-290 | every run of transactions, with rejected ones and a fatal end, is balanced up to its drift |
| `Block.OneDeposit` | core/blockchain.go:223-302 | a block of one deposit, after which pool and gas used exceed the limit by its gas |
| `Feed.DeleteMembers` | event/feed.go:223-225 | deleting removes exactly one case |
| `Feed.DeleteSplit` | event/feed.go:223-225 | and keeps the others on their side of the active part |
| `Feed.DeactivateSplit` | event/feed.go:228-232 | deactivating moves exactly one case out of the active part |
| `Feed.StepInv` | event/feed.go:103-190 | every step keeps the invariant on lists, memberships and the running broadcast |
| `Feed.EveryInterleaving` | event/feed.go:72-190 | each finished `Send` delivered once to everyone present and not removed, at most once to the removed, to nobody else, exactly to the channels that took the value, and counted right; a live subscription is in exactly one list |
| `Feed.StepTells` | event/feed.go:103-190 | a step on the slices is seen as what its event says of sets of channels: a refused try delivers nothing, a pass without refusal ends the `Send` |
| `Feed.EventsTell` | event/feed.go:72-190 | so subscriptions, deliveries, removals and finished records of every run can be read off its events |
| `Feed.SendTells` | event/feed.go:128-190 | what a `Send` delivered is exactly what was accepted since it began |
| `Feed.CanFinish` | event/feed.go:155-182 | a `Send` whose receivers accept is over within two steps for each case |
| `Feed.EveryRunIsScripted` | event/feed.go:155-182 | every run of a `Send` comes about under the schedule of its choices |
| `Feed.ScriptIsScheduled` | event/feed.go:155-182 | and a `Send` makes no choice that the schedule does not hold |
| `Feed.Find` | event/feed.go:213-220 | the first position, or -1 exactly if absent |
| `Feed.DeleteAt` | event/feed.go:223-225 | shifting in place leaves the slice without exactly that case, and a slice of the same array that ends before it as it was |
| `Feed.DeactivateAt` | event/feed.go:228-232 | the swap in the shared array is the exchange of two cases, and the slice ends before the retired one |
| `Feed.Append` | event/feed.go:136-136 | the new slice holds both parts, in the old array or a new one |
| `Feed.FeedObject.constructor` | event/feed.go:60-66 | a feed starts empty with its token |
| `Feed.FeedObject.TakeOut` | event/feed.go:171-177 | after a removal during a broadcast `cases` is still a prefix of `sendCases` in the same array, shorter exactly if the case was active |
| `Feed.FeedObject.FastPath` | event/feed.go:159-165 | the loop tries every active case in turn, as the schedule says each try ends |
| `Feed.FeedObject.Select` | event/feed.go:170-181 | the select serves or removes one case, as the schedule says |
| `Feed.FeedObject.Send` | event/feed.go:128-190 | for every schedule of tries, selects and other goroutines' steps, `Send` does exactly what the schedule says; when it returns, its record is complete and its result is the number of channels that took the value |
| `Feed.FeedObject.Remove` | event/feed.go:103-124 | which steps a removal takes; with no broadcast in progress the subscription is in no list afterwards |
| `Relocation.CanonicalTransactions` | core/rawdb/accessors_chain.go:405-430 | reads exactly the first entries at or after the key, in ascending order, as many as asked for or as there are, gaps or not |
| `Relocation.WriteTransactions` | migrations/txs_begin_end.go:247-265 | writes exactly the range |
| `Relocation.MoveBlock` | migrations/txs_begin_end.go:84-113 | moves one block between two empty slots and leaves everything below its old place alone |
| `Relocation.MovedBlock` | migrations/txs_begin_end.go:97-113 | the half-moved layout is kept from block to block |
| `Relocation.NewSequenceIsEnd` | migrations/txs_begin_end.go:205-220 | the unsigned increment sets the sequence to the end of the last body, up or down |
| `Relocation.Db.Up` | migrations/txs_begin_end.go:28-227 | block k's transactions end in order at old base + 2k + 1 between two empty slots, nothing else is left, bodies say so; the sequence is at the new end exactly if no header is ahead of the bodies |
| `Relocation.HeadersAhead` | migrations/txs_begin_end.go:192-221 | an input for which the sequence stays behind |
| `Multiplex.SortSorted` | p2p/protocol.go:82-86 | sorting gives the capabilities in order, each as often as before |
| `Multiplex.MatchProtocols` | p2p/peer.go:366-388 | the loop returns the contiguous table of the chosen capabilities |
| `Multiplex.ChosenMembers` | p2p/peer.go:366-388 | these are exactly the highest versions of each name that both sides have, by ascending name |
| `Multiplex.FindMatch` | p2p/peer.go:374-386 | the first of our protocols with that name and version |
| `Multiplex.WinnersAreHighest` | p2p/peer.go:377-380 | what survives replacing earlier versions is the highest version of each name |
| `Multiplex.CommonMembers` | p2p/peer.go:366-388 | the matching capabilities are those both sides have |
| `Multiplex.MatchIsTable` | p2p/peer.go:366-388 | the result is the table of winners in name order, contiguous from 16, also across reverts |
| `Multiplex.BothEndsAgree` | p2p/peer.go:366-388 | both ends compute the same table |
| `Multiplex.AgreedMembers` | p2p/server.go:533-536 | the agreed capabilities are the highest common versions |
| `Multiplex.GetProto` | p2p/peer.go:419-426 | finds the entry that serves a code, if any |
| `Multiplex.OneServes` | p2p/peer.go:419-426 | a code in an entry's range is served by that entry and no other |
| `Multiplex.Exchange` | p2p/peer.go:438-469 | a code written by one end is handed to the same protocol with the same code at the other |
| `Multiplex.OnlyReceiver` | p2p/peer.go:419-469 | and to no other protocol |
| `PeerWrite.TokenStep` | p2p/peer.go:243-273 | every step keeps exactly one token, or none after a failed write |
| `PeerWrite.StepInv` | p2p/peer.go:231-459 | every step keeps the invariant |
| `PeerWrite.EachByItself` | p2p/peer.go:231-459 | after every interleaving each goroutine is where its own events have brought it; `run` has left its loop exactly if it took an error or was told to disconnect, for that reason, and until then every error sent is in its channel |
| `PeerWrite.ErrorCloses` | p2p/peer.go:248-279 | once an error was sent, `run` can be closed within three steps, for that error |
| `PeerWrite.OneWriteAtATime` | p2p/peer.go:438-459 | in every interleaving the begin and end events of writes never overlap and none begins after a failed one; at most one write is in progress |
| `PeerWrite.SendsNeverBlock` | p2p/peer.go:219-315 | after every interleaving every send on the four error and token channels finds room, also after shutdown |
| `PeerWrite.WaitingIsServed` | p2p/peer.go:447-457 | a waiting writer can always be writing or turned away within five steps |
| `PeerWrite.CallerIsServed` | p2p/peer.go:438-459 | whoever calls on a running peer can be writing or turned away within six steps |
| `PeerWrite.WindsDown` | p2p/peer.go:275-315 | a closed peer can always get all its goroutines finished |
| `ExpiryHeap.RootIsLeast` | p2p/util.go:35-37 | nothing expires before the root |
| `ExpiryHeap.ExpHeap.NextExpiry` | p2p/util.go:35-37 | the next expiry is the least |
| `ExpiryHeap.ExpHeap.Add` | p2p/util.go:40-42 | adds exactly the item and keeps the heap |
| `ExpiryHeap.ExpHeap.Pop` | p2p/util.go:57-76 | takes out an item that expires first, and nothing else |
| `ExpiryHeap.ExpHeap.Contains` | p2p/util.go:45-52 | tells exactly whether the key is present |
| `ExpiryHeap.ExpHeap.PopExpired` | p2p/util.go:55-62 | one round of the loop: an item that expires first, if that is before now, and otherwise nothing has expired |
| `ExpiryHeap.ExpHeap.Expire` | p2p/util.go:55-62 | removes exactly what expires before now, in order of expiry |
| `Dial.LaunchAllowed` | p2p/dial.go:394-468 | a launch that `checkDial` allows keeps launches of one node more than the history's memory apart |
| `Dial.RemovedFits` | p2p/dial.go:447-455 | moving the last task into the gap keeps every index right |
| `Dial.OthersPooled` | p2p/dial.go:394-435 | what happens to one node does not change the verdict on another |
| `Dial.DialScheduler.CheckDial` | p2p/dial.go:394-417 | none exactly if the node is not us, has a port, is neither being dialed nor connected, is in the whitelist and not in the history; each error is the first reason |
| `Dial.DialScheduler.AddToStaticPool` | p2p/dial.go:437-443 | a pooled dial task is last in the pool and its index says so |
| `Dial.DialScheduler.RemoveFromStaticPool` | p2p/dial.go:447-455 | that dial task is out of the pool, the last one in its place, both indexes right |
| `Dial.DialScheduler.StartDial` | p2p/dial.go:458-468 | the node is being dialed, in the history and in the record of launches; nothing changes for other nodes |
| `Dial.DialScheduler.StartStaticDials` | p2p/dial.go:420-427 | afterwards the pool is empty and every static node has a reason not to be dialed |
| `Dial.DialScheduler.UpdateStaticPool` | p2p/dial.go:430-435 | afterwards this node's task, too, is pooled exactly if it may be dialed |
| `Dial.DialScheduler.OnFound` | p2p/dial.go:253-258 | a discovered node is launched, at its endpoint, exactly if nothing is against it |
| `Dial.DialScheduler.OnFinished` | p2p/dial.go:260-264 | a finished task leaves and its node is considered again |
| `Dial.DialScheduler.OnPeerAdded` | p2p/dial.go:266-277 | counts dialed peers and takes the node out of the pool |
| `Dial.DialScheduler.OnPeerRemoved` | p2p/dial.go:279-284 | the reverse |
| `Dial.DialScheduler.OnAddStatic` | p2p/dial.go:286-297 | files a new static node once |
| `Dial.DialScheduler.OnRemoveStatic` | p2p/dial.go:299-308 | unfiles it and takes it out of the pool |
| `Dial.DialScheduler.ExpireHistory` | p2p/dial.go:371-380 | forgets exactly what has expired and pools what may be dialed again |
| `Dial.DialScheduler.Loop` | p2p/dial.go:228-321 | for any sequence of messages: launches of one node are far enough apart and never for ourselves, a peer, a node being dialed, an address without port or outside the whitelist; one running task per node; indexes right; the pool is exactly the dialable static nodes; peers, their count and the static nodes are what the messages say |
| `Dial.DialScheduler.Turn` | p2p/dial.go:238-313 | one turn: all pooled static nodes are launched, the message takes effect, and a discovered node is launched if there was a free slot and nothing is against it |
| `Dial.DialScheduler.Select` | p2p/dial.go:250-313 | the effect of each message on peers, counter, static nodes, running dials and launches |
| `Dial.DialScheduler.ValidIsSafe` | p2p/dial.go:228-321 | these promises follow from the loop invariant |
| `Admission.LimitsShareOut` | p2p/server.go:682-699 | the two limits add up to the peer limit; neither is negative exactly if the peer limit is not and a negative ratio exceeds it in size; the dialed share is the limit divided by the ratio, at least one, and none exactly if dialing is off or no peers are allowed |
| `Admission.CountMatchingProtocols` | p2p/peer.go:353-363 | counts matches; zero exactly if no protocol would run |
| `Admission.UselessIffNothingRuns` | p2p/server.go:862-863 | a peer is useless exactly if matching gives no running protocol |
| `Admission.Server.PostHandshakeChecks` | p2p/server.go:852-867 | refuses for the first reason that applies, and only then |
| `Admission.JoinedExact` | p2p/server.go:804-814 | an admission keeps counters exact and the limits for the untrusted |
| `Admission.LeftExact` | p2p/server.go:817-825 | so does a departure |
| `Admission.Server.OnAdd` | p2p/server.go:801-815 | the verdict of the checks, reason by reason, and the whole new bookkeeping of server and dialer for admission and refusal |
| `Admission.Server.Round` | p2p/server.go:763-827 | the effect of each message on peers, trusted nodes, flags, waiting connections and the dialer's static nodes |
| `Admission.Server.OnDrop` | p2p/server.go:817-825 | the whole new bookkeeping after a departure |
| `Admission.Server.OnTrust` | p2p/server.go:769-785 | the trusted set changes and only the current peer's flag follows |
| `Admission.Server.OnHandshake` | p2p/server.go:792-799 | a connection is flagged trusted exactly if its node is |
| `Admission.Server.Run` | p2p/server.go:763-827 | for any sequence of messages and dialer turns each has its effect, the counters are exact and the limits hold |
| `AncestorCache.FreshOnChain` | core/evm.go:86-117 | on a complete chain a fresh walk finds the hash of the block with that number |
| `AncestorCache.FreshAbove` | core/evm.go:86-117 | from the reference on, every number but the last is answered with the zero hash |
| `AncestorCache.FreshBeforeGenesis` | core/evm.go:86-117 | the exact answer for the last number |
| `AncestorCache.WalkThrough` | core/evm.go:96-101 | a walk to a block that is not cached passes through the last cached hash |
| `AncestorCache.HashFn.Call` | core/evm.go:91-116 | whatever was asked before, the answer is that of a fresh walk; the cache only grows |
| `AncestorCache.HashFn.Extend` | core/evm.go:99-115 | the search loop ends and finds what a fresh walk finds |
| `AncestorCache.HashFn.CallAll` | core/evm.go:86-117 | any sequence of queries is answered like so many fresh walks |
| `PrefixWalk.TopBits` | ethdb/kv_util.go:31-38 | equal under the mask means equal in the first bits |
| `PrefixWalk.TestIsBits` | ethdb/kv_util.go:15-15 | the loop's byte and mask test is equality of the first fixedbits bits |
| `PrefixWalk.SharesBetween` | ethdb/kv_util.go:15-15 | a key between the start key and one that shares the prefix shares it |
| `PrefixWalk.NoneLater` | ethdb/kv_util.go:15-27 | after the first key that fails the test no later key would pass |
| `PrefixWalk.Walk` | ethdb/kv_util.go:9-29 | visits in order exactly the keys at or past the start that share its first bits, until the callback or the cursor ends it |
| `PrefixWalk.Uninterrupted` | ethdb/kv_util.go:9-29 | a scan that nothing interrupts visits all of them |

## Left out

- Reflection, type caches, struct tags, pools, big integers and references in `rlp`: values are byte strings, unsigned integers and nested lists.
- Encodings of 2^63 bytes and more, which no Go slice can hold.
- `NewListStream`, which pushes a list of unchecked size, and the allocation of a buffer for a size that the input does not have. The iterator over malformed data is covered only by `RlpRaw.ListIterator.Next`.
- The copies of the buffer's slices inside `encReader` share memory with the `encbuf` in Go; the model copies the string and the list heads and shares only the scratch buffer.
- The error texts and their wrapping, logging, metrics, and the nil cases of Go interfaces.
- The EVM itself: it is any function of balances, nonces and gas that conserves the total and returns no more gas than it was given; a creation moves the sender's nonce inside it. Intrinsic gas and account code are parameters.
- Parlia and gas-bailout paths, and that an error leaves the state unchanged: errors after the purchase do not undo it.
- The wei law for deposit messages, whose mint is not paid by anyone.
- `Feed`: a channel is subscribed at most once at a time; the type check's panics are not modelled; the reflect select is one step with any choice among the active cases, and what tries and selects return, and which other goroutines act when, is a schedule given to `Send`; clearing the sent values is not modelled.
- Resuming the migration from saved progress, its cleanup of non-canonical blocks, and its own assertions.
- `PeerWrite`: a state machine over values, not objects; pings and pongs write without the token, the content of errors is not kept, and that a write or a protocol handler ends is up to the environment.
- The connection handshakes, discovery, resolving, sockets and timers: they are events. The history timer may fire at any time.
- `Dial.DialScheduler.Loop`: no bound on the number of running dials, because static dials ignore the slots; a static node without an address is resolved after its launch, and the endpoint then dialed is not part of the record; times and node IDs are plain numbers, without 64-bit overflow of the clock.
- `Block.ExecuteBlock`: the checks of receipt root and bloom, and what the consensus engine does before and after the transactions; of the final checks only that of the gas is modelled.
- `Admission`: listening, inbound throttling, the RPC-facing operations and the final shutdown of the loop.
- RPC, ABI, genesis, configuration, consensus engines, storage engines and everything else not named above.
