/** BankItem: one stack of a bank, an item id and a quantity, both Java
    `int`, compared by value. */
module BankItems {
  import opened JavaInts

  datatype BankItem = BankItem(itemId: int32, quantity: int32)

  /** No item id occurs twice. */
  predicate DistinctIds(items: seq<BankItem>) {
    forall i, j :: 0 <= i < j < |items| ==> items[i].itemId != items[j].itemId
  }

  /** The set of item ids in a list. */
  function IdsOf(items: seq<BankItem>): set<int32> {
    set x | x in items :: x.itemId
  }

  /** The item list as the flat number list id, qty, id, qty, ... */
  function ItemNumbers(items: seq<BankItem>): (nums: seq<int32>)
    ensures |nums| == 2 * |items|
  {
    seq(2 * |items|, j requires 0 <= j < 2 * |items| =>
      if j % 2 == 0 then items[j / 2].itemId else items[j / 2].quantity)
  }

  /** Consecutive numbers paired into items: (nums[0], nums[1]), (nums[2], nums[3]), ... */
  function Pairs(nums: seq<int32>): (items: seq<BankItem>)
    requires |nums| % 2 == 0
    ensures |items| == |nums| / 2
  {
    seq(|nums| / 2, k requires 0 <= k < |nums| / 2 => BankItem(nums[2 * k], nums[2 * k + 1]))
  }

  /** Pairing two more numbers appends one item. */
  lemma PairsExtend(nums: seq<int32>, j: nat)
    requires j % 2 == 0 && j + 2 <= |nums|
    ensures Pairs(nums[..j + 2]) == Pairs(nums[..j]) + [BankItem(nums[j], nums[j + 1])]
  {
    var a := Pairs(nums[..j + 2]);
    var b := Pairs(nums[..j]) + [BankItem(nums[j], nums[j + 1])];
    forall k | 0 <= k < |a| ensures a[k] == b[k] {
      if k < j / 2 {
        assert nums[..j + 2][2 * k] == nums[..j][2 * k];
        assert nums[..j + 2][2 * k + 1] == nums[..j][2 * k + 1];
      }
    }
  }

  lemma PairsOfItemNumbers(items: seq<BankItem>)
    ensures Pairs(ItemNumbers(items)) == items
  {
    var nums := ItemNumbers(items);
    forall k | 0 <= k < |items| ensures Pairs(nums)[k] == items[k] {
      assert nums[2 * k] == items[k].itemId;
      assert nums[2 * k + 1] == items[k].quantity;
    }
  }

  lemma ItemNumbersOfPairs(nums: seq<int32>)
    requires |nums| % 2 == 0
    ensures ItemNumbers(Pairs(nums)) == nums
  {
    var items := Pairs(nums);
    forall j | 0 <= j < |nums| ensures ItemNumbers(items)[j] == nums[j] {
      if j % 2 == 0 {
        assert 2 * (j / 2) == j;
      } else {
        assert 2 * (j / 2) + 1 == j;
      }
    }
  }
}
