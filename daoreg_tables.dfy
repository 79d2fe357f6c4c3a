/** The rows of the `daoreg` contract's tables and their index keys
    (include/daoreg.hpp). An EOSIO `name` is represented by its 64-bit value,
    a `symbol` by its raw 64-bit value. */
module DaoTables {
  import opened FixedWidth

  type Name = Uint64

  datatype Symbol = Symbol(raw: Uint64)

  datatype Asset = Asset(amount: Int64, symbol: Symbol)

  /** The alternatives of the attribute variant, without its `double`. */
  datatype VariantValue =
    | Monostate
    | U64(u: Uint64)
    | I64(i: Int64)
    | NameValue(n: Name)
    | AssetValue(a: Asset)
    | Str(s: string)

  /** A registered token: its contract account and its symbol. */
  datatype TokenRef = TokenRef(contract: Name, symbol: Symbol)

  /** A row of the `daos` table. `attributes` is keyed by attribute name,
      so a row holds at most one value per attribute. */
  datatype Dao = Dao(
    daoId: Uint64,
    dao: Name,
    creator: Name,
    ipfs: string,
    attributes: map<string, VariantValue>,
    tokens: seq<TokenRef>)

  /** A row of the `balances` table. */
  datatype Balance = Balance(
    id: Uint64,
    available: Asset,
    locked: Asset,
    daoId: Uint64,
    tokenAccount: Name)

  /** A row of the `offers` table; `timestampSec` stands for the seconds
      since the epoch of its `timestamp`. */
  datatype Offer = Offer(
    offerId: Uint64,
    creator: Name,
    availableQuantity: Asset,
    totalQuantity: Asset,
    pricePerUnit: Asset,
    conversionInfo: map<string, Asset>,
    status: Uint8,
    timestampSec: Uint32,
    offerType: Uint8,
    tokenIdx: Uint8,
    matchId: Uint128)

  /** `daos::primary_key`. */
  function PrimaryKey(row: Dao): (k: Uint64)
    ensures k == row.daoId
  {
    row.daoId
  }

  /** Two 64-bit halves packed into a `uint128_t` as `(uint128_t(hi) << 64) + lo`:
      no bit is lost, and the halves come back by division and remainder. */
  function Pack64(hi: Uint64, lo: Uint64): (k: Uint128)
    ensures k == hi * TWO_64 + lo
    ensures k / TWO_64 == hi && k % TWO_64 == lo
  {
    Pow2Constants();
    DivModUnique(hi * TWO_64 + lo, TWO_64, hi, lo);
    Add128(Shl128(hi, 64), lo)
  }

  /** `daos::by_creator_dao`, the `bycreatordao` index key. */
  function ByCreatorDao(row: Dao): (k: Uint128)
    ensures k == row.creator * TWO_64 + row.dao
    ensures k / TWO_64 == row.creator && k % TWO_64 == row.dao
  {
    Pack64(row.creator, row.dao)
  }

  /** `daos::by_dao_daoid`, the `bydaodaoid` index key. */
  function ByDaoDaoid(row: Dao): (k: Uint128)
    ensures k == row.dao * TWO_64 + row.daoId
    ensures k / TWO_64 == row.dao && k % TWO_64 == row.daoId
  {
    Pack64(row.dao, row.daoId)
  }

  /** `balances::by_token_account_token`, the `bytkaccttokn` index key. */
  function ByTokenAccountToken(b: Balance): (k: Uint128)
    ensures k == b.tokenAccount * TWO_64 + b.available.symbol.raw
    ensures k / TWO_64 == b.tokenAccount && k % TWO_64 == b.available.symbol.raw
  {
    Pack64(b.tokenAccount, b.available.symbol.raw)
  }

  /** Two `daos` rows share a `bycreatordao` key exactly when they share
      creator and name. */
  lemma ByCreatorDaoInjective(a: Dao, b: Dao)
    ensures ByCreatorDao(a) == ByCreatorDao(b) <==> (a.creator == b.creator && a.dao == b.dao)
  {
  }

  /** Two `daos` rows share a `bydaodaoid` key exactly when they share
      name and id. */
  lemma ByDaoDaoidInjective(a: Dao, b: Dao)
    ensures ByDaoDaoid(a) == ByDaoDaoid(b) <==> (a.dao == b.dao && a.daoId == b.daoId)
  {
  }

  /** Two balances share a `bytkaccttokn` key exactly when they share token
      account and symbol. */
  lemma ByTokenAccountTokenInjective(a: Balance, b: Balance)
    ensures ByTokenAccountToken(a) == ByTokenAccountToken(b)
        <==> (a.tokenAccount == b.tokenAccount && a.available.symbol == b.available.symbol)
  {
  }

  // ---------------------------------------------------------------------
  // offers::by_offer_match

  /** The reversed timestamp, `UINT64_MAX - sec_since_epoch`. */
  function ReversedTime(o: Offer): (t: Uint64)
    ensures t >= UINT64_MAX - 0xFFFF_FFFF
  {
    UINT64_MAX - o.timestampSec
  }

  /** The sum `type<<125 + status<<123 + uint128(price)<<56 + 0xFFFFFFFFFFFFFF`,
      which the key expression adds up before applying its `&`. */
  function OfferMatchSum(o: Offer): Uint128
  {
    Pow2Constants();
    Add128(
      Add128(
        Add128(Shl128(o.offerType, 125), Shl128(o.status, 123)),
        Shl128(Int64ToUint128(o.pricePerUnit.amount), 56)),
      TWO_56 - 1)
  }

  /** `offers::by_offer_match` as written: since `+` binds tighter than `&`,
      the whole sum is masked by the reversed timestamp, so the key never
      exceeds that timestamp. */
  function ByOfferMatchAsWritten(o: Offer): (k: Uint128)
    ensures k <= ReversedTime(o)
  {
    And128(OfferMatchSum(o), ReversedTime(o))
  }

  /** As written, the key is the low 8 bits of the price above the low 56
      bits of the reversed timestamp: type, status and the price's higher
      bits are masked away, whatever their values. */
  lemma ByOfferMatchAsWrittenValue(o: Offer)
    ensures ByOfferMatchAsWritten(o) == (o.pricePerUnit.amount % 256) * TWO_56 + ReversedTime(o) % TWO_56
  {
    Pow2Constants();
    var sum := OfferMatchSum(o);
    var m := ReversedTime(o);
    var h := o.pricePerUnit.amount % 256;
    var low := sum % TWO_64;
    OfferMatchSumLow(o);
    assert low == h * TWO_56 + (TWO_56 - 1);
    // Bits from 64 up: the timestamp has none, so only the low 64 bits of the sum count.
    BitAndSplit(sum, m, 64);
    ShiftRightLowBits(sum, 64);
    ShiftRightLowBits(m, 64);
    DivModUnique(m, TWO_64, 0, m);
    assert BitAnd(ShiftRight(sum, 64), 0) == 0;
    assert BitAnd(sum, m) == BitAnd(low, m);
    // Bits from 56 to 63: the price's low byte against the timestamp's all-ones byte.
    BitAndSplit(low, m, 56);
    ShiftRightLowBits(low, 56);
    ShiftRightLowBits(m, 56);
    DivModUnique(low, TWO_56, h, TWO_56 - 1);
    DivModUnique(m, TWO_56, 255, m - 255 * TWO_56);
    BitAndCommutes(h, 255);
    assert Pow2(8) == 256;
    BitAndLowMask(8, h);
    DivModUnique(h, 256, 0, h);
    BitAndLowMask(56, m % TWO_56);
    DivModUnique(m % TWO_56, TWO_56, 0, m % TWO_56);
  }

  /** The low 64 bits of the summed fields: the type and status terms lie
      wholly above bit 63, and the price term keeps only its low byte there. */
  lemma OfferMatchSumLow(o: Offer)
    ensures OfferMatchSum(o) % TWO_64 == (o.pricePerUnit.amount % 256) * TWO_56 + (TWO_56 - 1)
  {
    Pow2Constants();
    var price := o.pricePerUnit.amount;
    var h := price % 256;
    var a := Shl128(o.offerType, 125);
    var b := Shl128(o.status, 123);
    var c := Shl128(Int64ToUint128(price), 56);
    ShlHighLow64(o.offerType, 125);
    ShlHighLow64(o.status, 123);
    ShlPriceLow64(price);
    var ab := Add128(a, b);
    Add128Low64(a, b);
    DivModUnique(0, TWO_64, 0, 0);
    assert ab % TWO_64 == 0;
    var abc := Add128(ab, c);
    Add128Low64(ab, c);
    DivModUnique(h * TWO_56, TWO_64, 0, h * TWO_56);
    assert abc % TWO_64 == h * TWO_56;
    Add128Low64(abc, TWO_56 - 1);
    DivModUnique(TWO_56 - 1, TWO_64, 0, TWO_56 - 1);
    DivModUnique(h * TWO_56 + (TWO_56 - 1), TWO_64, 0, h * TWO_56 + (TWO_56 - 1));
  }

  /** The low 64 bits of a `uint128_t` sum are those of the sum of the
      operands' low 64 bits. */
  lemma Add128Low64(x: Uint128, y: Uint128)
    ensures Add128(x, y) % TWO_64 == (x % TWO_64 + y % TWO_64) % TWO_64
  {
    ModModDivisor(x + y, TWO_64, TWO_64);
    ModAdd(x, y, TWO_64);
  }

  /** A shift by 64 or more leaves no bit below bit 64. */
  lemma ShlHighLow64(x: Uint128, n: nat)
    requires 64 <= n < 128
    ensures Shl128(x, n) % TWO_64 == 0
  {
    Pow2Constants();
    var e := Pow2(n - 64);
    Pow2Add(64, n - 64);
    assert x * Pow2(n) == TWO_64 * (x * e);
    ModModDivisor(x * Pow2(n), TWO_64, TWO_64);
    DivModUnique(x * Pow2(n), TWO_64, x * e, 0);
  }

  /** `uint128(price) << 56` keeps, below bit 64, the low byte of the price
      in two's complement. */
  lemma ShlPriceLow64(price: Int64)
    ensures Shl128(Int64ToUint128(price), 56) % TWO_64 == (price % 256) * TWO_56
  {
    Pow2Constants();
    var u := Int64ToUint128(price);
    ModModDivisor(price, 256, 0x100_0000_0000_0000_0000_0000_0000_0000);
    assert u % 256 == price % 256;
    assert u * TWO_56 == TWO_64 * (u / 256) + (u % 256) * TWO_56;
    ModModDivisor(u * TWO_56, TWO_64, TWO_64);
    DivModUnique(u * TWO_56, TWO_64, u / 256, (u % 256) * TWO_56);
  }

  /** As written, two offers with the same timestamp whose prices agree in
      their low 8 bits share a key, whatever their types and statuses. */
  lemma ByOfferMatchAsWrittenIgnoresType(o1: Offer, o2: Offer)
    requires o1.timestampSec == o2.timestampSec
    requires o1.pricePerUnit.amount % 256 == o2.pricePerUnit.amount % 256
    ensures ByOfferMatchAsWritten(o1) == ByOfferMatchAsWritten(o2)
  {
    ByOfferMatchAsWrittenValue(o1);
    ByOfferMatchAsWrittenValue(o2);
  }

  /** As written, the key's type field (its bits from 125 up) reads 0 for
      every offer. */
  lemma ByOfferMatchAsWrittenTypeField(o: Offer)
    ensures ByOfferMatchAsWritten(o) / TWO_125 == 0
  {
    DivModUnique(ByOfferMatchAsWritten(o), TWO_125, 0, ByOfferMatchAsWritten(o));
  }

  /** Hence, for an offer whose type is 1 to 7, status below 4 and price
      non-negative, the key as written differs from the intended one. */
  lemma ByOfferMatchAsWrittenDiffers(o: Offer)
    requires 1 <= o.offerType < 8 && o.status < 4 && o.pricePerUnit.amount >= 0
    ensures ByOfferMatchAsWritten(o) != ByOfferMatch(o)
  {
    ByOfferMatchAsWrittenTypeField(o);
    OfferMatchFields(o);
  }

  /** `offers::by_offer_match` with the mask applied to the timestamp alone,
      `... + (uint128(0xFFFFFFFFFFFFFF) & uint128(UINT64_MAX - sec))`. For
      every offer, its low 56 bits are those of the reversed timestamp. */
  function ByOfferMatch(o: Offer): (k: Uint128)
    ensures k % TWO_56 == ReversedTime(o) % TWO_56
  {
    Pow2Constants();
    var a := Shl128(o.offerType, 125);
    var b := Shl128(o.status, 123);
    var c := Shl128(Int64ToUint128(o.pricePerUnit.amount), 56);
    var d := And128(TWO_56 - 1, ReversedTime(o));
    ShlLow56(o.offerType, 125);
    ShlLow56(o.status, 123);
    ShlLow56(Int64ToUint128(o.pricePerUnit.amount), 56);
    BitAndLowMask(56, ReversedTime(o));
    Add128Low56(a, b);
    DivModUnique(0, TWO_56, 0, 0);
    Add128Low56(Add128(a, b), c);
    Add128Low56(Add128(Add128(a, b), c), d);
    DivModUnique(d, TWO_56, 0, d);
    Add128(Add128(Add128(a, b), c), d)
  }

  /** A shift by 56 or more leaves no bit below bit 56. */
  lemma ShlLow56(x: Uint128, n: nat)
    requires 56 <= n < 128
    ensures Shl128(x, n) % TWO_56 == 0
  {
    Pow2Constants();
    var e := Pow2(n - 56);
    Pow2Add(56, n - 56);
    assert x * Pow2(n) == TWO_56 * (x * e);
    ModModDivisor(x * Pow2(n), TWO_56, 0x100_0000_0000_0000_0000);
    DivModUnique(x * Pow2(n), TWO_56, x * e, 0);
  }

  /** The low 56 bits of a `uint128_t` sum are those of the sum of the
      operands' low 56 bits. */
  lemma Add128Low56(x: Uint128, y: Uint128)
    ensures Add128(x, y) % TWO_56 == (x % TWO_56 + y % TWO_56) % TWO_56
  {
    ModModDivisor(x + y, TWO_56, 0x100_0000_0000_0000_0000);
    ModAdd(x, y, TWO_56);
  }

  /** With a type below 8, a status below 4 and a non-negative price, the
      corrected key lays the four fields side by side without overlap. */
  lemma OfferMatchLayout(o: Offer)
    requires o.offerType < 8 && o.status < 4 && o.pricePerUnit.amount >= 0
    ensures ByOfferMatch(o) == o.offerType * TWO_125 + o.status * TWO_123
                               + o.pricePerUnit.amount * TWO_56 + ReversedTime(o) % TWO_56
  {
    Pow2Constants();
    BitAndLowMask(56, ReversedTime(o));
    var price := o.pricePerUnit.amount;
    var a := Shl128(o.offerType, 125);
    var b := Shl128(o.status, 123);
    var c := Shl128(Int64ToUint128(price), 56);
    var d := And128(TWO_56 - 1, ReversedTime(o));
    assert a == o.offerType * TWO_125;
    assert b == o.status * TWO_123;
    assert c == price * TWO_56;
    assert d == ReversedTime(o) % TWO_56;
    assert Add128(a, b) == a + b;
    assert Add128(a + b, c) == a + b + c;
  }

  /** Under the same bounds each field of the corrected key is recovered
      from the key. */
  lemma OfferMatchFields(o: Offer)
    requires o.offerType < 8 && o.status < 4 && o.pricePerUnit.amount >= 0
    ensures ByOfferMatch(o) / TWO_125 == o.offerType
    ensures (ByOfferMatch(o) / TWO_123) % 4 == o.status
    ensures (ByOfferMatch(o) / TWO_56) % 0x8000_0000_0000_0000 == o.pricePerUnit.amount
    ensures ByOfferMatch(o) % TWO_56 == ReversedTime(o) % TWO_56
  {
    OfferMatchLayout(o);
    Unpack(o.offerType, o.status, o.pricePerUnit.amount, ReversedTime(o) % TWO_56);
  }

  lemma Unpack(t: nat, s: nat, p: nat, l: nat)
    requires t < 8 && s < 4 && p < 0x8000_0000_0000_0000 && l < TWO_56
    ensures var k := t * TWO_125 + s * TWO_123 + p * TWO_56 + l;
      && k / TWO_125 == t
      && (k / TWO_123) % 4 == s
      && (k / TWO_56) % 0x8000_0000_0000_0000 == p
      && k % TWO_56 == l
  {
    var k := t * TWO_125 + s * TWO_123 + p * TWO_56 + l;
    DivModUnique(k, TWO_125, t, s * TWO_123 + p * TWO_56 + l);
    DivModUnique(k, TWO_123, t * 4 + s, p * TWO_56 + l);
    DivModUnique(t * 4 + s, 4, t, s);
    var hi := t * 0x20_0000_0000_0000_0000 + s * 0x8_0000_0000_0000_0000;
    DivModUnique(k, TWO_56, hi + p, l);
    DivModUnique(hi + p, 0x8000_0000_0000_0000, t * 64 + s * 16, p);
  }
}
