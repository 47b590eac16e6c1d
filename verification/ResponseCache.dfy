/**
  * The cache of large tool responses (src/mcp_proxy/tool_response_cache.py): an ordered dictionary,
  * least recently used first, with a time to live and an owner on every entry.
  */
module ResponseCache {
  import opened Wrappers

  datatype Entry = Entry(tool: string, text: string, createdAt: real, owner: Option<string>)

  datatype Row = Row(id: string, entry: Entry)

  type Pos = n: int | n >= 1 witness 1

  datatype Config = Config(maxEntries: Pos, ttl: real)

  /** The constructor's parameters, raised to at least one entry and half a minute. */
  function Configured(maxEntries: int, ttl: real): Config {
    Config(if maxEntries < 1 then 1 else maxEntries, if ttl < 30.0 then 30.0 else ttl)
  }

  predicate Live(cfg: Config, r: Row, now: real) {
    now - r.entry.createdAt <= cfg.ttl
  }

  /** The rows that have not expired, in their order. */
  function Purged(cfg: Config, rows: seq<Row>, now: real): seq<Row> {
    if rows == [] then []
    else if Live(cfg, rows[0], now) then [rows[0]] + Purged(cfg, rows[1..], now)
    else Purged(cfg, rows[1..], now)
  }

  function Without(rows: seq<Row>, id: string): seq<Row> {
    if rows == [] then []
    else if rows[0].id != id then [rows[0]] + Without(rows[1..], id)
    else Without(rows[1..], id)
  }

  function Lookup(rows: seq<Row>, id: string): Option<Entry> {
    if rows == [] then None
    else if rows[0].id == id then Some(rows[0].entry)
    else Lookup(rows[1..], id)
  }

  /** The last maxEntries rows. */
  function Trimmed(cfg: Config, rows: seq<Row>): seq<Row> {
    if |rows| <= cfg.maxEntries then rows else rows[|rows| - cfg.maxEntries..]
  }

  /** `put` under a given id */
  function PutStep(cfg: Config, rows: seq<Row>, id: string, e: Entry, now: real): seq<Row> {
    Trimmed(cfg, Without(Purged(cfg, rows, now), id) + [Row(id, e)])
  }

  /** What `get` answers: an entry that is there, has not expired, and belongs to the caller. */
  function GetAnswer(cfg: Config, rows: seq<Row>, id: string, owner: Option<string>, now: real): Option<Entry> {
    var e :- Lookup(Purged(cfg, rows, now), id);
    if e.owner == owner then Some(e) else None
  }

  /** What `get` leaves behind: only an answer moves its row to the end. */
  function GetStep(cfg: Config, rows: seq<Row>, id: string, owner: Option<string>, now: real): seq<Row> {
    var live := Purged(cfg, rows, now);
    var answer := GetAnswer(cfg, rows, id, owner, now);
    if answer.Some? then Without(live, id) + [Row(id, answer.value)] else live
  }

  predicate Distinct(rows: seq<Row>) {
    forall i, j :: 0 <= i < j < |rows| ==> rows[i].id != rows[j].id
  }

  function Ids(rows: seq<Row>): set<string> {
    set i | 0 <= i < |rows| :: rows[i].id
  }

  lemma {:induction false} WithoutFacts(rows: seq<Row>, id: string)
    requires Distinct(rows)
    ensures Distinct(Without(rows, id)) && |Without(rows, id)| <= |rows|
    ensures forall r :: r in Without(rows, id) <==> r in rows && r.id != id
    ensures Lookup(rows, id).Some? ==> |Without(rows, id)| < |rows|
  {
    if rows != [] {
      WithoutFacts(rows[1..], id);
      assert rows == [rows[0]] + rows[1..];
      forall r | r in rows[1..] ensures r.id != rows[0].id {
      }
    }
  }

  lemma {:induction false} PurgedFacts(cfg: Config, rows: seq<Row>, now: real)
    requires Distinct(rows)
    ensures Distinct(Purged(cfg, rows, now)) && |Purged(cfg, rows, now)| <= |rows|
    ensures forall r :: r in Purged(cfg, rows, now) <==> r in rows && Live(cfg, r, now)
  {
    if rows != [] {
      PurgedFacts(cfg, rows[1..], now);
      assert rows == [rows[0]] + rows[1..];
      forall r | r in rows[1..] ensures r.id != rows[0].id {
      }
    }
  }

  /** Looking an id up finds its one row. */
  lemma {:induction false} LookupFacts(rows: seq<Row>, id: string)
    requires Distinct(rows)
    ensures Lookup(rows, id).Some? ==> Row(id, Lookup(rows, id).value) in rows
    ensures Lookup(rows, id).None? ==> forall r :: r in rows ==> r.id != id
    ensures forall r :: r in rows && r.id == id ==> Lookup(rows, id) == Some(r.entry)
  {
    if rows != [] {
      LookupFacts(rows[1..], id);
      assert rows == [rows[0]] + rows[1..];
      forall r | r in rows[1..] ensures r.id != rows[0].id {
      }
    }
  }

  class ToolResponseCache {
    const cfg: Config
    var entries: seq<Row>

    ghost predicate Valid()
      reads this
    {
      Distinct(entries) && |entries| <= cfg.maxEntries
    }

    constructor (maxEntries: int, ttl: real)
      ensures Valid() && entries == [] && cfg == Configured(maxEntries, ttl)
      ensures cfg.maxEntries >= 1 && (maxEntries >= 1 ==> cfg.maxEntries == maxEntries)
      ensures cfg.maxEntries > maxEntries ==> cfg.maxEntries == 1
      ensures cfg.ttl >= 30.0 && cfg.ttl >= ttl && (cfg.ttl == 30.0 || cfg.ttl == ttl)
    {
      cfg := Configured(maxEntries, ttl);
      entries := [];
    }

    method Put(id: string, tool: string, text: string, owner: Option<string>, createdAt: real, now: real)
      requires Valid()
      modifies this
      ensures Valid()
      ensures entries == PutStep(cfg, old(entries), id, Entry(tool, text, createdAt, owner), now)
    {
      hide Purged, Without;
      PurgeExpired(now);
      var row := Row(id, Entry(tool, text, createdAt, owner));
      WithoutFacts(entries, id);
      entries := Without(entries, id) + [row];
      ghost var all := entries;
      while |entries| > cfg.maxEntries
        invariant |entries| <= |all| && entries == all[|all| - |entries|..]
        invariant |all| > cfg.maxEntries ==> |entries| >= cfg.maxEntries
        invariant |all| <= cfg.maxEntries ==> entries == all
        decreases |entries|
      {
        entries := entries[1..];
      }
    }

    method Get(id: string, owner: Option<string>, now: real) returns (r: Option<Entry>)
      requires Valid()
      modifies this
      ensures Valid()
      ensures r == GetAnswer(cfg, old(entries), id, owner, now)
      ensures entries == GetStep(cfg, old(entries), id, owner, now)
    {
      hide Purged, Without, Lookup;
      PurgeExpired(now);
      r := Lookup(entries, id);
      if r.None? { return None; }
      if r.value.owner != owner { return None; }
      WithoutFacts(entries, id);
      entries := Without(entries, id) + [Row(id, r.value)];
    }

    /** `_purge_expired_unlocked`, keeping what has not expired in one pass. */
    method PurgeExpired(now: real)
      requires Valid()
      modifies this
      ensures Valid() && entries == Purged(cfg, old(entries), now)
    {
      var kept, i := [], 0;
      while i < |entries|
        invariant 0 <= i <= |entries| && entries == old(entries)
        invariant kept + Purged(cfg, entries[i..], now) == Purged(cfg, entries, now)
      {
        if Live(cfg, entries[i], now) {
          kept := kept + [entries[i]];
        }
        i := i + 1;
      }
      assert entries[i..] == [] && kept + [] == kept;
      PurgedFacts(cfg, entries, now);
      entries := kept;
    }
  }
}
