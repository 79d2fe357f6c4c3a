# DAO registry (`daoreg`) — a Dafny model

This project models the `daoreg` EOSIO smart contract's DAO registry. The contract keeps a
table of organizations (`daos`), keyed by a 64-bit `dao_id`. Four actions change the table:

- `reset` erases every row.
- `create` adds one organization.
- `update` rewrites an organization's name and IPFS hash.
- `delorg` removes an organization.

Each action checks a signer's authority. `update` and `delorg` also check that the organization
exists. The contract's header also defines the row layouts of its `daos`, `balances` and
`offers` tables, with 128-bit composite index keys.

The project has three modules:

- `FixedWidth` (`fixed_width.dfy`) covers the C++ `uint128_t` arithmetic the keys use:
  - conversion of a signed 64-bit value, with sign extension;
  - `<<` and `+`, both wrapping modulo 2^128;
  - bitwise `&`, defined bit by bit. Its bound, its low-mask property, its symmetry and its
    split into high and low bits are proved.
- `DaoTables` (`daoreg_tables.dfy`) holds the row datatypes and the key functions.
  - It proves what each composite key equals, and that both halves come back out of it.
  - It proves that equal keys mean equal fields.
  - It covers `by_offer_match` twice: as written, and as evidently intended (see Findings).
- `DaoRegistry` (`daoreg_actions.dfy`) holds the actions.
  - Each action is a pure function from the table before to an `Outcome`. That is either
    `Ok(new table)` or `Fail(error)`. The function's contract states the action's rules.
  - Each action is also a method of the class `Registry`. The class holds the table as a
    `map` field and changes it in place. Each method is proved to return the status of its
    function and to leave the table its function gives, or the old table on failure.
  - `reset` erases rows one at a time in a loop, as the contract does.
  - Three lemmas replay the test scenarios on the functions, and one method replays a
    scenario on the class.

Some modelling choices:

- An EOSIO `name` is its 64-bit value, and a `symbol` is its raw 64-bit value.
- `require_auth(a)` becomes membership of `a` in the set of accounts that signed the action.
- A failing `check` or `require_auth` aborts the whole action. So every failure leaves the
  table exactly as it was.

Where the header and the .cpp disagree, the model follows the .cpp bodies:

- `update` and `delorg` take a `name dao` and look the row up by `dao.value`. The header
  declares a `uint64_t dao_id` instead.
- `reset` takes no user list.

Where the tests' expectations and the code disagree, the model follows the code:

- `update` sets the row's `dao` field to the looked-up name, whose value is the row's id. The
  "Update IPFS DAO" test expects the original name to remain. `DaoRegistry.UpdateRenamesToKey`
  states this for every successful update, and `DaoRegistry.UpdateScenario` states the code's
  result on the test's data.
- `create` needs the contract's own authority. One test expects the missing authority to be
  that of a user account.
- `create` never assigns `dao_id`. The tests observe 0 for the first row after a reset. The
  model takes the stored primary key as an explicit `key` argument of `create`. A key that is
  already stored aborts the action with `PrimaryKeyInUse`.

## Model

| member | source | states |
|---|---|---|
| `DaoRegistry.ResetAction` | src/daoreg.cpp:3-14 | reset succeeds exactly when the contract's own account signed; otherwise it fails with that account's missing authority; on success the table is empty |
| `DaoRegistry.CreateAction` | src/daoreg.cpp:18-30 | create needs the contract's own authority, whatever the `creator` argument and whoever else signed; with it, a key already stored fails with `PrimaryKeyInUse`; on success the table gains exactly the one key, its size grows by one, the new row carries the given name, creator and hash with no attributes and no tokens, every earlier row is untouched, and rows stay under their primary keys |
| `DaoRegistry.UpdateAction` | src/daoreg.cpp:32-48 | an absent key fails with "Organization not found" whoever signed; otherwise it succeeds exactly when the stored creator signed, and fails with the creator's missing authority if not; on success only that row changes: its `dao` becomes the looked-up name and its `ipfs` the new hash, while id, creator, attributes, tokens, the key set and all other rows stay as they were |
| `DaoRegistry.DelOrgAction` | src/daoreg.cpp:50-61 | the same not-found-before-authority rule as update; on success exactly that key leaves the table, its size drops by one, and every remaining row is unchanged |
| `DaoRegistry.Registry.Reset` | src/daoreg.cpp:9-12 | the erase loop, one row per step with the table's size as its measure, ends with the table `ResetAction` gives, and the method reports its status; without the authority the table is unchanged |
| `DaoRegistry.Registry.Create` | src/daoreg.cpp:20-28 | the in-place `emplace` leaves the table and status `CreateAction` gives, and rows stay under their primary keys |
| `DaoRegistry.Registry.Update` | src/daoreg.cpp:36-46 | the in-place lookup, check and `modify` leave the table and status `UpdateAction` gives |
| `DaoRegistry.Registry.DelOrg` | src/daoreg.cpp:52-59 | the in-place lookup, check and `erase` leave the table and status `DelOrgAction` gives |
| `DaoRegistry.Registry.constructor` | src/daoreg.cpp:7 | the contract's table, in its own scope, before any action: empty and well keyed |
| `DaoRegistry.UpdateRenamesToKey` | src/daoreg.cpp:38-46 | in a table whose rows sit under their `primary_key`, a successful update leaves the row with name, `dao_id` and primary key all equal to the looked-up `dao` value, whatever name the row had before |
| `DaoRegistry.ResetIdempotent` | src/daoreg.cpp:9-12 | a second reset leaves the table as one reset did; on an empty table a signed reset succeeds and changes nothing |
| `DaoRegistry.CreateThenDelOrg` | src/daoreg.cpp:18-61 | deleting a just-created organization with its creator's signature gives back the table as it was before the create |
| `DaoRegistry.UpdateLastWins` | src/daoreg.cpp:43-46 | two successful updates of one organization act as the second one alone |
| `DaoRegistry.CreateScenario` | test/daoreg.test.js:51-95 | from any table, after the reset that precedes each test and a create by the contract, a create signed by another account fails with the contract's missing authority, and the table holds the one row with id 0, name, creator, hash, no attributes and no tokens |
| `DaoRegistry.UpdateScenario` | test/daoreg.test.js:97-168 | from any table, after the reset that precedes each test and a create, one successful update and two failed ones (wrong signer, absent id) leave exactly the successful update's row |
| `DaoRegistry.DeleteScenario` | test/daoreg.test.js:170-214 | from any table, after the reset that precedes each test and a create, delorg by another account fails with the creator's missing authority, delorg of an absent id fails with not found, and the creator's delorg empties the table |
| `DaoRegistry.UpdateSession` | test/daoreg.test.js:97-168 | the same update scenario run on a `Registry` through the methods' contracts yields the expected five statuses and the final table |
| `DaoTables.PrimaryKey` | include/daoreg.hpp:83 | a row's primary key is its `dao_id`; `CreateAction`, `UpdateAction` and `DelOrgAction` keep every row stored under it |
| `DaoTables.ByCreatorDao` | include/daoreg.hpp:84 | the shifted-and-added key equals creator·2^64 + dao with no wrap-around, and its high and low 64 bits give back creator and dao |
| `DaoTables.ByDaoDaoid` | include/daoreg.hpp:85 | the key equals dao·2^64 + dao_id, and both halves come back out of it |
| `DaoTables.ByTokenAccountToken` | include/daoreg.hpp:103 | the key equals token_account·2^64 + the symbol's raw value, and both halves come back out of it |
| `DaoTables.ByCreatorDaoInjective` | include/daoreg.hpp:84-90 | two rows share a `bycreatordao` key if and only if they share creator and name |
| `DaoTables.ByDaoDaoidInjective` | include/daoreg.hpp:85-92 | two rows share a `bydaodaoid` key if and only if they share name and id |
| `DaoTables.ByTokenAccountTokenInjective` | include/daoreg.hpp:103-108 | two balances share a `bytkaccttokn` key if and only if they share token account and symbol |
| `DaoTables.ByOfferMatchAsWritten` | include/daoreg.hpp:126-130 | as written, `+` binds tighter than `&`, so the whole sum is masked by `UINT64_MAX - sec_since_epoch` and the key never exceeds that value |
| `DaoTables.ByOfferMatchAsWrittenValue` | include/daoreg.hpp:126-130 | as written, for every offer, the key is exactly (price mod 256)·2^56 + (`UINT64_MAX - sec_since_epoch`) mod 2^56: only the price's low 8 bits, taken in two's complement, and the timestamp order it |
| `DaoTables.OfferMatchSumLow` | include/daoreg.hpp:128-130 | the low 64 bits of the summed fields are (price mod 256)·2^56 + 2^56 - 1: type and status contribute nothing below bit 64 |
| `DaoTables.ShlPriceLow64` | include/daoreg.hpp:129 | below bit 64, `uint128_t(price) << 56` holds the price's low byte in two's complement at bit 56, for negative prices too |
| `DaoTables.ByOfferMatchAsWrittenIgnoresType` | include/daoreg.hpp:126-130 | as written, two offers with the same timestamp whose prices agree modulo 256 share a key, whatever their types and statuses |
| `DaoTables.ByOfferMatchAsWrittenTypeField` | include/daoreg.hpp:126-130 | as written, the key's type field (its bits from 125 up) reads 0 for every offer |
| `DaoTables.ByOfferMatchAsWrittenDiffers` | include/daoreg.hpp:126-130 | for an offer with type 1 to 7, status below 4 and a non-negative price, the key as written differs from the intended one |
| `DaoTables.ByOfferMatch` | include/daoreg.hpp:126-130 | the evidently intended key, with the mask on the timestamp alone: for every offer its low 56 bits are those of `UINT64_MAX - sec_since_epoch` |
| `DaoTables.OfferMatchLayout` | include/daoreg.hpp:126-130 | the intended key, for type < 8, status < 4 and a non-negative price, is type·2^125 + status·2^123 + price·2^56 + the low 56 bits of the reversed timestamp |
| `DaoTables.OfferMatchFields` | include/daoreg.hpp:126-130 | under the same bounds, type, status, price and the low 56 bits of the reversed timestamp are each recovered from the intended key |
| `FixedWidth.Int64ToUint128` | include/daoreg.hpp:129 | converting a signed 64-bit amount to `uint128_t` gives the amount modulo 2^128 (sign extension) and keeps non-negative values unchanged |
| `FixedWidth.Shl128` | include/daoreg.hpp:84-85 | `uint128_t` `<<`, as in the keys at lines 84, 85, 103 and 128-129: the result is always the low 128 - n bits of x moved up by n, so bits pushed past bit 127 are lost (a `uint8_t` 255 shifted by 125 gives 7·2^125, a negative price sign-extended and shifted by 56 keeps only its low 72 bits); when `x·2^n` fits in 128 bits it is that product |
| `FixedWidth.Add128` | include/daoreg.hpp:84-85 | `uint128_t` `+`, as in the keys at lines 84, 85, 103 and 128-130: the plain sum when it fits in 128 bits, otherwise the sum less 2^128 |
| `FixedWidth.And128` | include/daoreg.hpp:130 | `a & b` never exceeds either operand |
| `FixedWidth.BitAndBound` | include/daoreg.hpp:130 | the bitwise `&` of two naturals is at most each of them |
| `FixedWidth.BitAndLowMask` | include/daoreg.hpp:130 | masking with 2^k - 1 keeps exactly the value modulo 2^k |
| `FixedWidth.BitAndCommutes` | include/daoreg.hpp:130 | `a & b == b & a` |
| `FixedWidth.BitAndShiftRight` | include/daoreg.hpp:130 | the bits of `a & b` from k up are the `&` of the bits of a and of b from k up |
| `FixedWidth.BitAndLowBits` | include/daoreg.hpp:130 | the bits of `a & b` below k are the `&` of the bits of a and of b below k |
| `FixedWidth.BitAndSplit` | include/daoreg.hpp:130 | `a & b` is the `&` of the operands' bits from k up, times 2^k, plus the `&` of their bits below k: a bitwise `&` works on the high and low bits separately |

## Left out

- The other actions in the header have no bodies in the source, so their behaviour is not modelled: `setparam`, `resetsttngs`, `upsertattrs`, `delattrs`, `addtoken`, `withdraw`, `createoffer`, `removeoffer` and `acceptoffer`. The same holds for the `deposit` transfer hook and the private helpers.
- Properties of those actions (attribute upsert and delete, duplicate token symbols) are not modelled, for the same reason.
- `dao_id` allocation: `create` never assigns `dao_id`, so the stored key is a value the source does not determine. The model takes it as the explicit `key` argument, and a key already stored aborts with `PrimaryKeyInUse`.
- The `multi_index` library is not part of this model: storage, the RAM payer and upkeep of secondary indexes. A primary key that is already stored is modelled as an aborting `PrimaryKeyInUse` failure.
- `reset` erases from `begin()`, the lowest key, onwards. The model's loop erases rows in any order, which ends in the same empty table.
- `require_auth` is reduced to membership in a signer set. Permission levels (`@active`) are not modelled.
- An error is kept as a value, not as text. The wording "missing authority of …" needs the base-32 `name` encoding, which is not modelled.
- The `double` alternative of the attribute variant is left out, because it is floating point.
- `time_point` is left out. An offer keeps its `sec_since_epoch` value as a 32-bit seconds field.
- `attributes` holding at most one value per key holds by construction, since the field is a `map`. No modelled action writes attributes.
- The test harness, the chain RPC, account provisioning and the offer test-data factory are test code, so they are not modelled.

## Findings

| source | as written | input that shows it | evidently intended | confidence | as-written member | corrected member |
|---|---|---|---|---|---|---|
| include/daoreg.hpp:126-130 | `type<<125 + status<<123 + price<<56 + 0xFFFFFFFFFFFFFF & (UINT64_MAX - sec)` parses as `(… + 0xFFFFFFFFFFFFFF) & (UINT64_MAX - sec)`, so the key is exactly (price mod 256)·2^56 + (`UINT64_MAX - sec`) mod 2^56, and type, status and all but the low 8 bits of the price no longer order it (prices that differ by a multiple of 256 share a key) | an offer with type 1, status 0, price 0: the key's bits from 125 up read 0, not 1 | the mask applies to the reversed timestamp alone: `… + (0xFFFFFFFFFFFFFF & (UINT64_MAX - sec))`, which places type, status, price and time side by side | high (not executed) | `DaoTables.ByOfferMatchAsWrittenDiffers` | `DaoTables.OfferMatchFields` |
