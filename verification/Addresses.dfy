/** IPv4 subnets and the address allocator of pier-core (network/wireguard.rs). */
module Addresses {
  import opened Text

  /** A subnet as the operator writes it; Subnet is its normalised form. */
  datatype Cidr = Cidr(address: nat, prefix: nat)
  datatype Subnet = Subnet(network: nat, prefix: nat)

  function Pow2(n: nat): (r: nat)
    ensures r >= 1
    ensures n >= 2 ==> r >= 4
  {
    if n == 0 then 1 else 2 * Pow2(n - 1)
  }

  /** Addresses in a subnet: two to the number of host bits. */
  function Size(prefix: nat): (r: nat)
    requires prefix <= 30
    ensures r >= 4
  {
    Pow2(32 - prefix)
  }

  /** The start of the block of `m` addresses that `a` lies in: the address with its host bits cleared. */
  function BlockStart(a: nat, m: nat): (r: nat)
    requires m > 0
    ensures r <= a < r + m && r % m == 0
  {
    DivisionFloors(a, m);
    a / m * m
  }

  function ParseSubnet(c: Cidr): Option<Subnet> {
    if c.prefix > 30 then None else Some(Subnet(BlockStart(c.address, Size(c.prefix)), c.prefix))
  }

  function FirstHost(s: Subnet): nat { s.network + 1 }

  function LastHost(s: Subnet): nat
    requires s.prefix <= 30
  {
    s.network + Size(s.prefix) - 2
  }

  predicate IsHost(s: Subnet, ip: nat)
    requires s.prefix <= 30
  {
    FirstHost(s) <= ip <= LastHost(s)
  }

  function HostCount(s: Subnet): nat
    requires s.prefix <= 30
  {
    Size(s.prefix) - 2
  }

  /** The lowest address in lo..hi that is not used. */
  function LowestFree(lo: nat, hi: nat, used: set<nat>): (r: Option<nat>)
    ensures r.Some? ==> lo <= r.value <= hi && r.value !in used && forall c | lo <= c < r.value :: c in used
    ensures r.None? <==> forall c | lo <= c <= hi :: c in used
    decreases hi + 1 - lo
  {
    if lo > hi then None
    else if lo !in used then Some(lo)
    else LowestFree(lo + 1, hi, used)
  }

  method AllocateIp(s: Subnet, used: set<nat>) returns (r: Option<nat>)
    requires s.prefix <= 30
    ensures r.Some? ==> IsHost(s, r.value) && r.value !in used && forall c | FirstHost(s) <= c < r.value :: c in used
    ensures r.None? <==> forall c | IsHost(s, c) :: c in used
    ensures r == LowestFree(FirstHost(s), LastHost(s), used)
  {
    var cur := FirstHost(s);
    while cur <= LastHost(s)
      invariant FirstHost(s) <= cur <= LastHost(s) + 1
      invariant forall c | FirstHost(s) <= c < cur :: c in used
    {
      if cur !in used {
        LowestIsUnique(FirstHost(s), LastHost(s), used, cur);
        return Some(cur);
      }
      cur := cur + 1;
    }
    return None;
  }

  lemma LowestIsUnique(lo: nat, hi: nat, used: set<nat>, ip: nat)
    requires lo <= ip <= hi && ip !in used && forall c | lo <= c < ip :: c in used
    ensures LowestFree(lo, hi, used) == Some(ip)
  {
  }

  /** Seats `n` nodes one after the other, each on the lowest address still free. */
  function Plan(lo: nat, hi: nat, used: set<nat>, n: nat): Option<seq<nat>>
    decreases n
  {
    if n == 0 then Some([])
    else
      match LowestFree(lo, hi, used)
      case None => None
      case Some(ip) =>
        match Plan(lo, hi, used + {ip}, n - 1)
        case None => None
        case Some(rest) => Some([ip] + rest)
  }

  function Free(lo: nat, hi: nat, used: set<nat>): set<nat> { set c | lo <= c <= hi && c !in used }

  ghost predicate Distinct<T(!new)>(s: seq<T>) { forall i, j | 0 <= i < j < |s| :: s[i] != s[j] }

  /** A plan uses distinct free addresses of the range; it exists exactly when enough are free. */
  lemma {:induction false} PlanIsFresh(lo: nat, hi: nat, used: set<nat>, n: nat)
    ensures Plan(lo, hi, used, n).Some? <==> n <= |Free(lo, hi, used)|
    ensures var p := Plan(lo, hi, used, n);
            p.Some? ==>
              && |p.value| == n
              && Distinct(p.value)
              && forall i | 0 <= i < n :: p.value[i] in Free(lo, hi, used)
    decreases n
  {
    var r := LowestFree(lo, hi, used);
    if n > 0 {
      if r.Some? {
        var ip := r.value;
        PlanIsFresh(lo, hi, used + {ip}, n - 1);
        assert Free(lo, hi, used + {ip}) == Free(lo, hi, used) - {ip};
        assert ip in Free(lo, hi, used);
        var rest := Plan(lo, hi, used + {ip}, n - 1);
        if rest.Some? {
          assert forall i | 0 <= i < n - 1 :: rest.value[i] in Free(lo, hi, used) && rest.value[i] != ip;
        }
      } else {
        assert Free(lo, hi, used) == {};
      }
    }
  }

  /** From an empty table the plan is simply the first n addresses in order. */
  lemma {:induction false} PlanFromEmpty(lo: nat, hi: nat, taken: nat, used: set<nat>, n: nat)
    requires lo + taken <= hi + 1
    requires forall c: nat :: c in used <==> lo <= c < lo + taken
    ensures var p := Plan(lo, hi, used, n);
            && (p.Some? <==> n <= hi + 1 - lo - taken)
            && (p.Some? ==> |p.value| == n && forall i | 0 <= i < n :: p.value[i] == lo + taken + i)
    decreases n
  {
    if n > 0 {
      if lo + taken <= hi {
        LowestIsUnique(lo, hi, used, lo + taken);
        PlanFromEmpty(lo, hi, taken + 1, used + {lo + taken}, n - 1);
      } else {
        assert LowestFree(lo, hi, used).None?;
      }
    }
  }

  /** Normalising clears the host bits: an aligned block that holds the written address. */
  lemma SubnetHoldsAddress(c: Cidr)
    requires c.prefix <= 30
    ensures var s := ParseSubnet(c).value;
            s.network <= c.address < s.network + Size(s.prefix) && s.network % Size(s.prefix) == 0
  {
    hide Size;
    assert BlockStart(c.address, Size(c.prefix)) % Size(c.prefix) == 0;
  }

  lemma DivisionFloors(a: nat, m: nat)
    requires m > 0
    ensures 0 <= a / m * m <= a < a / m * m + m && a / m * m % m == 0
  {
    Multiple(a / m, m);
  }

  lemma Multiple(q: nat, m: nat)
    requires m > 0
    ensures q * m % m == 0
  {
    var x := q * m;
    var d := q - x / m;
    assert x == x / m * m + x % m;
    assert d * m == x % m;
  }

  lemma {:induction false} PowersAdd(m: nat, n: nat)
    ensures Pow2(m) * Pow2(n) == Pow2(m + n)
  {
    hide Pow2;
    PowStep(m);
    PowStep(m + n);
    if m > 0 {
      PowersAdd(m - 1, n);
      Doubled(Pow2(m - 1), Pow2(n));
    }
  }

  lemma PowStep(n: nat)
    ensures Pow2(n) == if n == 0 then 1 else 2 * Pow2(n - 1)
  {
  }

  lemma Doubled(a: nat, b: nat)
    ensures 2 * a * b == 2 * (a * b)
  {
  }

  /** As many subnets of a size as make up the 32-bit address space. */
  lemma SizeIsShare(prefix: nat)
    requires prefix <= 30
    ensures Size(prefix) * Pow2(prefix) == 0x1_0000_0000
  {
    PowersAdd(32 - prefix, prefix);
    assert Pow2(8) == 0x100;
    PowersAdd(8, 8);
    PowersAdd(16, 16);
  }

  /** The hosts are the addresses of the block but the first, the network, and the last, the broadcast address. */
  lemma HostsAreInner(c: Cidr, ip: nat)
    requires c.prefix <= 30
    ensures var s := ParseSubnet(c).value;
            var inBlock := s.network <= ip < s.network + Size(c.prefix);
            && s.prefix == c.prefix
            && (IsHost(s, ip) <==> inBlock && ip != s.network && ip + 1 != s.network + Size(c.prefix))
            && HostCount(s) == LastHost(s) - FirstHost(s) + 1
  {
    hide Size, BlockStart;
  }
}
