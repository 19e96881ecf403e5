/** Writing numbers of a 7z header in a row, and reading them back. */
module NumberWriting {
  import opened Common
  import opened HeaderReader

  /** A number, and with how many extra bytes it is written. */
  datatype Num = Num(value: nat, extra: nat)

  function Values(nums: seq<Num>): (values: seq<nat>)
    ensures |values| == |nums|
  {
    seq(|nums|, i requires 0 <= i < |nums| => nums[i].value)
  }

  ghost predicate AllFit(nums: seq<Num>) {
    forall i | 0 <= i < |nums| :: Fits(nums[i].value, nums[i].extra)
  }

  ghost function NumbersBytes(nums: seq<Num>): seq<byte>
    requires AllFit(nums)
  {
    if nums == [] then []
    else NumbersBytes(nums[..|nums| - 1]) + Encode(nums[|nums| - 1].value, nums[|nums| - 1].extra)
  }

  lemma Grouped(a: seq<byte>, b: seq<byte>, c: seq<byte>, d: seq<byte>)
    ensures a + (b + c) + d == a + b + (c + d) == (a + b) + c + d
    ensures a + (b + c) == (a + b) + c
  {
  }

  lemma NumberRead(front: seq<byte>, num: Num, rest: seq<byte>)
    requires Fits(num.value, num.extra)
    ensures var written := Encode(num.value, num.extra);
            NumberAt(front + written + rest, |front|) == Some((num.value, |front + written|))
  {
    hide Number, Encode;
    var written := Encode(num.value, num.extra);
    EncodeLength(num);
    NumberRoundTrip(num.value, num.extra, rest);
    assert (front + written + rest)[|front|..] == written + rest;
  }

  lemma EncodeLength(num: Num)
    requires Fits(num.value, num.extra)
    ensures |Encode(num.value, num.extra)| == num.extra + 1
  {
  }

  lemma {:induction false} NumbersRead(front: seq<byte>, nums: seq<Num>, rest: seq<byte>)
    requires AllFit(nums)
    ensures var written := NumbersBytes(nums);
            NumbersAt(front + written + rest, |front|, |nums|) == Some((Values(nums), |front + written|))
  {
    hide Fits, NumberAt, Encode;
    if nums == [] {
      assert front + [] + rest == front + rest;
    } else {
      var n := |nums| - 1;
      var before, last := NumbersBytes(nums[..n]), Encode(nums[n].value, nums[n].extra);
      Grouped(front, before, last, rest);
      NumbersRead(front, nums[..n], last + rest);
      NumberRead(front + before, nums[n], rest);
      assert Values(nums) == Values(nums[..n]) + [nums[n].value];
    }
  }
}
