/** Subsidy and supply: `block_value`, `max_money` and the sum that joins them. */
module Money {
  const COIN: nat := 100_000_000
  const BLOCK_REWARD: nat := 50
  const REWARD_INTERVAL: nat := 210_000
  const COINBASE_MATURITY: nat := 100

  /** A shift by 64 or more is undefined in C++; this is the first depth that asks for one. */
  const SHIFT_LIMIT: nat := 64 * REWARD_INTERVAL

  function MaxMoneyRecursive(current: nat): nat {
    if current > 0 then current + MaxMoneyRecursive(current / 2) else 0
  }

  function MaxMoney(): nat {
    REWARD_INTERVAL * MaxMoneyRecursive(BLOCK_REWARD * COIN)
  }

  function ShiftRight(n: nat, count: nat): nat {
    if count == 0 then n else ShiftRight(n, count - 1) / 2
  }

  function BlockValue(depth: nat): nat
    requires depth < SHIFT_LIMIT
  {
    ShiftRight(BLOCK_REWARD * COIN, depth / REWARD_INTERVAL)
  }

  lemma {:induction false} ShiftShrinks(n: nat, count: nat)
    ensures ShiftRight(n, count) <= n
  {
    if count > 0 { ShiftShrinks(n, count - 1); }
  }

  /** No subsidy exceeds the first one. */
  lemma BlockValueBound(depth: nat)
    requires depth < SHIFT_LIMIT
    ensures BlockValue(depth) <= BLOCK_REWARD * COIN
  {
    ShiftShrinks(BLOCK_REWARD * COIN, depth / REWARD_INTERVAL);
  }

  /** What the first `count` blocks may create. */
  function SubsidySum(count: nat): nat
    requires count <= SHIFT_LIMIT
  {
    if count == 0 then 0 else SubsidySum(count - 1) + BlockValue(count - 1)
  }

  lemma EraTurn(subsidy: nat)
    ensures REWARD_INTERVAL * MaxMoneyRecursive(subsidy)
            == REWARD_INTERVAL * subsidy + REWARD_INTERVAL * MaxMoneyRecursive(subsidy / 2)
  {
    if subsidy == 0 { assert MaxMoneyRecursive(0) == 0; }
  }

  lemma PayOne(left: nat, subsidy: nat)
    requires left > 0
    ensures left * subsidy == (left - 1) * subsidy + subsidy
  {
  }

  lemma SumStep(count: nat)
    requires 0 < count <= SHIFT_LIMIT
    ensures SubsidySum(count) == SubsidySum(count - 1) + ShiftRight(BLOCK_REWARD * COIN, (count - 1) / REWARD_INTERVAL)
  {
    hide ShiftRight;
  }

  /** The subsidies paid and still to be paid always add up to `max_money`. */
  lemma {:induction false} SubsidyBalance(count: nat)
    requires count <= SHIFT_LIMIT
    ensures var era, paid := count / REWARD_INTERVAL, count % REWARD_INTERVAL;
            var subsidy := ShiftRight(BLOCK_REWARD * COIN, era);
            SubsidySum(count) + (REWARD_INTERVAL - paid) * subsidy
              + REWARD_INTERVAL * MaxMoneyRecursive(subsidy / 2) == MaxMoney()
  {
    hide MaxMoneyRecursive;
    if count == 0 {
      EraTurn(BLOCK_REWARD * COIN);
    } else {
      hide MaxMoney;
      hide SubsidySum;
      var era, paid := (count - 1) / REWARD_INTERVAL, (count - 1) % REWARD_INTERVAL;
      var subsidy := ShiftRight(BLOCK_REWARD * COIN, era);
      assert ShiftRight(BLOCK_REWARD * COIN, era + 1) == subsidy / 2;
      hide ShiftRight;
      SubsidyBalance(count - 1);
      SumStep(count);
      PayOne(REWARD_INTERVAL - paid, subsidy);
      EraTurn(subsidy / 2);
      if paid + 1 == REWARD_INTERVAL {
        assert count / REWARD_INTERVAL == era + 1 && count % REWARD_INTERVAL == 0;
      } else {
        assert count / REWARD_INTERVAL == era && count % REWARD_INTERVAL == paid + 1;
      }
    }
  }

  lemma NonNegativeProduct(a: nat, b: nat)
    ensures a * b >= 0
  {
  }

  /** No number of blocks creates more than `max_money`. */
  lemma SubsidyBound(count: nat)
    requires count <= SHIFT_LIMIT
    ensures SubsidySum(count) <= MaxMoney()
  {
    hide MaxMoney;
    hide MaxMoneyRecursive;
    SubsidyBalance(count);
    NonNegativeProduct(REWARD_INTERVAL - count % REWARD_INTERVAL,
                       ShiftRight(BLOCK_REWARD * COIN, count / REWARD_INTERVAL));
  }

  /** Sums of two amounts in range fit 64 bits. */
  lemma MaxMoneyValue()
    ensures MaxMoney() == 2_099_999_997_690_000
  {
    assert MaxMoneyRecursive(2) == 3;
    assert MaxMoneyRecursive(9) == 16;
    assert MaxMoneyRecursive(37) == 71;
    assert MaxMoneyRecursive(149) == 294;
    assert MaxMoneyRecursive(596) == 1188;
    assert MaxMoneyRecursive(2384) == 4764;
    assert MaxMoneyRecursive(9536) == 19068;
    assert MaxMoneyRecursive(38146) == 76287;
    assert MaxMoneyRecursive(152587) == 305167;
    assert MaxMoneyRecursive(610351) == 1220693;
    assert MaxMoneyRecursive(2441406) == 4882802;
    assert MaxMoneyRecursive(9765625) == 19531239;
    assert MaxMoneyRecursive(39062500) == 78124989;
    assert MaxMoneyRecursive(156250000) == 312499989;
    assert MaxMoneyRecursive(625000000) == 1249999989;
    assert MaxMoneyRecursive(2500000000) == 4999999989;
  }
}
