/** `calculate_ports` of `src/port.rs`. The branch name is hashed by Rust's
    `DefaultHasher`, which is not part of this model: the 64-bit hash is the
    input. */
module Ports {

  newtype u16 = x: int | 0 <= x < 0x1_0000
  newtype u64 = x: int | 0 <= x < 0x1_0000_0000_0000_0000

  datatype PortAllocation = PortAllocation(frontend: u16, backend: u16, postgres: u16)

  /** `(hash % 1000) + 1`, cast to `u16`: the cast never truncates. */
  function Offset(hash: u64): (num: u16)
    ensures 1 <= num <= 1000
    ensures num as int - 1 == hash as int % 1000
  {
    ((hash % 1000) + 1) as u16
  }

  /** The three ports, each a base plus the offset; the `u16` additions
      cannot overflow. */
  function CalculatePorts(hash: u64): (p: PortAllocation)
    ensures 5174 <= p.frontend <= 6173
    ensures 8081 <= p.backend <= 9080
    ensures 5433 <= p.postgres <= 6432
    ensures p.backend as int - p.frontend as int == 2907
    ensures p.postgres as int - p.frontend as int == 259
  {
    var num := Offset(hash);
    PortAllocation(5173 + num, 8080 + num, 5432 + num)
  }

  /** Two hashes give the same ports exactly when they agree modulo 1000. */
  lemma SamePortsIffSameOffset(h1: u64, h2: u64)
    ensures CalculatePorts(h1) == CalculatePorts(h2) <==> h1 as int % 1000 == h2 as int % 1000
  {
    var p1, p2 := CalculatePorts(h1), CalculatePorts(h2);
    if p1 == p2 {
      assert p1.frontend == p2.frontend;
    }
  }

  /** The three ports of one allocation are pairwise different, and no
      backend port of any allocation is a frontend or postgres port of
      another. */
  lemma PortsDistinct(h1: u64, h2: u64)
    ensures var p := CalculatePorts(h1);
            p.frontend != p.backend && p.frontend != p.postgres && p.backend != p.postgres
    ensures CalculatePorts(h1).backend != CalculatePorts(h2).frontend
    ensures CalculatePorts(h1).backend != CalculatePorts(h2).postgres
  {
  }

  /** The frontend and postgres ranges overlap: the frontend port of one
      branch can be the postgres port of another. */
  lemma FrontendMeetsPostgres()
    ensures CalculatePorts(259).frontend == CalculatePorts(0).postgres == 5433
  {
    assert Offset(259) == 260 && Offset(0) == 1;
  }
}
