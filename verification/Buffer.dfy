/** The doubling buffer in which the C client gathers a dump. */
module Buffer {
  import opened Protocol

  const SIZE_MAX: nat := 0xFFFF_FFFF_FFFF_FFFF

  function Pow2(k: nat): nat { if k == 0 then 1 else 2 * Pow2(k - 1) }

  /** The capacities a buffer goes through: 4096, doubled k times. */
  function Capacity(k: nat): nat { 4096 * Pow2(k) }

  /** The largest capacity: doubling it would wrap. */
  const LARGEST: nat := 0x8000_0000_0000_0000

  lemma Thirty()
    ensures Pow2(30) == 0x4000_0000
  {
    assert Pow2(10) == 0x400;
    assert Pow2(20) == 0x10_0000;
  }

  lemma LastDoubling()
    ensures Capacity(51) == LARGEST
  {
    Thirty();
    assert Pow2(40) == 0x100_0000_0000;
    assert Pow2(50) == 0x4_0000_0000_0000;
  }

  lemma {:induction false} CapacityGrows(j: nat, k: nat)
    requires j <= k
    ensures Capacity(j) <= Capacity(k)
    decreases k - j
  {
    if j < k {
      CapacityGrows(j, k - 1);
    }
  }

  /** Below the last doubling there is room for one more; there is not above it. */
  lemma MayDouble(k: nat)
    ensures Capacity(k) <= SIZE_MAX / 2 <==> k <= 50
    ensures k <= 51 ==> Capacity(k) <= LARGEST
  {
    LastDoubling();
    if k <= 50 {
      CapacityGrows(k, 50);
      CapacityGrows(k, 51);
      assert Capacity(51) == 2 * Capacity(50);
    } else {
      CapacityGrows(51, k);
    }
  }

  function Sum(s: seq<nat>): nat { if s == [] then 0 else s[|s| - 1] + Sum(s[..|s| - 1]) }

  lemma SumLast(s: seq<nat>, n: nat)
    ensures Sum(s + [n]) == Sum(s) + n
  {
  }

  class GrowingBuffer {
    var buf: array<byte>
    var len: nat
    var cap: nat
    ghost var doublings: nat
    /** The capacities of all the blocks ever allocated. */
    ghost var blocks: seq<nat>

    ghost predicate Valid()
      reads this
    {
      && buf.Length == cap
      && len <= cap
      && (if blocks == [] then cap == 0
          else cap == blocks[|blocks| - 1] == Capacity(doublings) && doublings <= 51)
      && (cap <= 4096 || cap < 2 * len)
      && (blocks != [] ==> Sum(blocks) < 2 * cap)
    }

    ghost function Contents(): seq<byte>
      requires Valid()
      reads this, buf
    {
      buf[..len]
    }

    constructor ()
      ensures Valid() && Contents() == [] && blocks == [] && fresh(buf)
    {
      buf := new byte[0];
      len, cap, doublings, blocks := 0, 0, 0, [];
    }

    /** The capacity to hold `need` bytes: the current one, or 4096, doubled until it is
        enough; nothing when the next doubling would wrap. */
    method Grown(need: nat) returns (newCap: Option<nat>, ghost k: nat)
      requires Valid() && need > cap
      ensures newCap.Some? <==> need <= LARGEST
      ensures newCap.Some? ==>
                && need <= newCap.value == Capacity(k) && k <= 51
                && (newCap.value == 4096 || newCap.value < 2 * need)
                && newCap.value >= 2 * cap
    {
      var c: nat := if cap != 0 then cap else 4096;
      k := if cap != 0 then doublings else 0;
      MayDouble(k);
      while c < need
        invariant c == Capacity(k) && k <= 51
        invariant c == (if cap != 0 then cap else 4096) || (c < 2 * need && c >= 2 * cap)
        decreases need - c
      {
        MayDouble(k);
        if c > SIZE_MAX / 2 {
          LastDoubling();
          return None, k;
        }
        assert c * 2 <= SIZE_MAX;
        c, k := c * 2, k + 1;
      }
      MayDouble(k);
      return Some(c), k;
    }

    /** `buffer_append`; `memory` is whether `realloc` finds memory. It fails, changing
        nothing, exactly when more than 2^63 bytes would be needed or there is no memory
        for a larger block. */
    method Append(data: seq<byte>, memory: bool) returns (ok: bool)
      requires Valid() && |data| <= SIZE_MAX && cap <= SIZE_MAX
      modifies this, buf
      ensures Valid() && (buf == old(buf) || fresh(buf))
      ensures ok <==> old(len) + |data| <= old(cap) || (old(len) + |data| <= LARGEST && memory)
      ensures Contents() == if ok then old(Contents()) + data else old(Contents())
      ensures old(blocks) <= blocks && |blocks| <= |old(blocks)| + 1
      ensures ok && blocks != [] ==> cap == 4096 || cap < 2 * len
    {
      if |data| > SIZE_MAX - len {
        return false;
      }
      var need := len + |data|;
      assert need <= SIZE_MAX;
      if need > cap {
        var newCap, k := Grown(need);
        if newCap.None? || !memory {
          return false;
        }
        Reallocate(newCap.value, k);
      }
      Copy(data);
      ok := true;
    }

    method Reallocate(newCap: nat, ghost k: nat)
      requires Valid() && newCap >= 2 * cap && newCap == Capacity(k) && k <= 51
      modifies this
      ensures buf.Length == cap == newCap && fresh(buf) && len == old(len)
      ensures buf[..len] == old(buf[..len])
      ensures doublings == k && blocks == old(blocks) + [newCap]
      ensures Sum(blocks) < 2 * newCap
    {
      var block := new byte[newCap];
      for i := 0 to len
        invariant block[..i] == buf[..i]
        modifies block
      {
        block[i] := buf[i];
      }
      SumLast(blocks, newCap);
      CapacityGrows(0, k);
      buf, cap := block, newCap;
      doublings, blocks := k, blocks + [newCap];
    }

    /** `memcpy(*buf + *len, data, data_len)` */
    method Copy(data: seq<byte>)
      requires buf.Length == cap && len + |data| <= cap
      modifies this`len, buf
      ensures len == old(len) + |data|
      ensures buf[..len] == old(buf[..len]) + data
    {
      for i := 0 to |data|
        invariant buf[..len + i] == old(buf[..len]) + data[..i]
        modifies buf
      {
        buf[len + i] := data[i];
        assert buf[..len + (i + 1)] == buf[..len + i] + [data[i]];
        assert data[..i + 1] == data[..i] + [data[i]];
      }
      assert data[..|data|] == data;
      len := len + |data|;
    }
  }
}
