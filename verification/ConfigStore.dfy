/**
  * The server configuration store (src/mcp_proxy/config_store.py) over its cached document. The
  * document and its records are objects; callers hold records too, and may change theirs at will.
  */
module ConfigStore {
  import opened Wrappers
  import opened JsonValues
  import opened ConfigRecords

  /** A pydantic record. */
  class Server {
    var id: string
    var fields: Args

    constructor (r: Rec)
      ensures id == r.id && fields == r.fields
    {
      id, fields := r.id, r.fields;
    }

    function Value(): Rec
      reads this
    {
      Rec(id, fields)
    }
  }

  /** The document that the parse cache shares between reads. */
  class Document {
    var servers: seq<Server>

    constructor (servers: seq<Server>)
      ensures this.servers == servers
    {
      this.servers := servers;
    }
  }

  function Values(servers: seq<Server>): Recs
    reads servers
  {
    seq(|servers|, i requires 0 <= i < |servers| reads servers => servers[i].Value())
  }

  lemma ValuesSnoc(servers: seq<Server>, s: Server)
    ensures Values(servers + [s]) == Values(servers) + [s.Value()]
  {
  }

  lemma NextValue(servers: seq<Server>, i: nat)
    requires i < |servers|
    ensures Values(servers)[..i + 1] == Values(servers)[..i] + [servers[i].Value()]
  {
  }

  datatype UpdateError = Unknown | IdChanged

  class ServerConfigStore {
    /** The file, and whether the cached document still carries its signature. */
    var disk: Recs
    var current: bool
    var cached: Document?
    /** Every record any caller has ever been given or has passed in. */
    ghost var held: set<Server>

    /** The cached document mirrors the file, and shares no record with any caller. */
    ghost predicate Valid()
      reads this, cached, if cached == null then [] else cached.servers
    {
      cached != null ==>
        && (forall s :: s in cached.servers ==> s !in held)
        && (current ==> Values(cached.servers) == disk)
    }

    constructor (disk: Recs)
      ensures Valid() && this.disk == disk && held == {} && cached == null
    {
      this.disk, current, cached, held := disk, false, null, {};
    }

    /** An edit by someone else; the file's signature changes with it. */
    method ExternalEdit(recs: Recs)
      requires Valid()
      modifies this`disk, this`current
      ensures Valid() && disk == recs
    {
      disk, current := recs, false;
    }

    /** A caller builds a record of its own. */
    method NewRecord(r: Rec) returns (s: Server)
      requires Valid()
      modifies this`held
      ensures Valid() && fresh(s) && s in held && s.Value() == r && held == old(held) + {s}
    {
      s := new Server(r);
      held := held + {s};
    }

    /** A caller changes a record it holds: neither the file nor any later answer notices. */
    method CallerChanges(s: Server, r: Rec)
      requires Valid() && s in held
      modifies s
      ensures Valid()
    {
      s.id, s.fields := r.id, r.fields;
    }

    /** `_read_raw`: the cached document, or a fresh parse of the file. */
    method ReadRaw() returns (doc: Document)
      requires Valid()
      modifies this`cached, this`current
      ensures Valid() && cached == doc && current && Values(doc.servers) == disk
      ensures fresh(doc) || doc == old(cached)
      ensures forall s :: s in doc.servers ==> s !in held
    {
      if cached != null && current { return cached; }
      var servers: seq<Server> := [];
      for i := 0 to |disk|
        invariant |servers| == i && fresh(servers)
        invariant forall k :: 0 <= k < i ==> servers[k].Value() == disk[k]
        invariant disk == old(disk) && held == old(held) && forall s :: s in servers ==> s !in held
      {
        var s := new Server(disk[i]);
        servers := servers + [s];
      }
      doc := new Document(servers);
      cached, current := doc, true;
    }

    /** `_write_unlocked`: replace the file and forget the document. */
    method Write(doc: Document)
      modifies this`disk, this`cached, this`current
      ensures Valid() && cached == null && disk == Values(doc.servers)
    {
      disk, cached, current := Values(doc.servers), null, false;
    }

    method ListServers() returns (copies: seq<Server>)
      requires Valid()
      modifies this`cached, this`current, this`held
      ensures Valid() && disk == old(disk)
      ensures Values(copies) == disk && fresh(copies) && forall s :: s in copies ==> s in held
    {
      var doc := ReadRaw();
      copies := [];
      for i := 0 to |doc.servers|
        invariant Valid() && cached == doc && current
        invariant |copies| == i && fresh(copies) && forall s :: s in copies ==> s in held
        invariant forall k :: 0 <= k < i ==> copies[k].Value() == disk[k]
      {
        assert doc.servers[i].Value() == Values(doc.servers)[i];
        var copy := new Server(doc.servers[i].Value());
        held := held + {copy};
        copies := copies + [copy];
      }
    }

    /** The position of the first record with an id, as every loop over the document finds it. */
    method Position(doc: Document, id: string) returns (i: nat)
      ensures i == IndexOf(Values(doc.servers), id)
    {
      i := 0;
      while i < |doc.servers| && doc.servers[i].id != id
        invariant i <= |doc.servers|
        invariant forall k :: 0 <= k < i ==> Values(doc.servers)[k].id != id
      {
        assert Values(doc.servers)[i] == doc.servers[i].Value();
        i := i + 1;
      }
      if i < |doc.servers| {
        assert Values(doc.servers)[i] == doc.servers[i].Value();
        IndexAt(Values(doc.servers), id, i);
      } else {
        assert !HasId(Values(doc.servers), id);
      }
    }

    method Get(id: string) returns (copy: Server?)
      requires Valid()
      modifies this`cached, this`current, this`held
      ensures Valid() && disk == old(disk)
      ensures copy == null <==> Find(disk, id).None?
      ensures copy != null ==> fresh(copy) && copy in held && Find(disk, id) == Some(copy.Value())
    {
      var doc := ReadRaw();
      var i := Position(doc, id);
      if i == |doc.servers| { return null; }
      assert Values(doc.servers)[i] == doc.servers[i].Value();
      var found := new Server(doc.servers[i].Value());
      held := held + {found};
      copy := found;
    }

    /** False where the id is taken. */
    method Add(server: Server) returns (ok: bool)
      requires Valid() && server in held
      modifies this, cached
      ensures Valid() && disk == Step(old(disk), Op.Add(server.Value()))
      ensures ok <==> !HasId(old(disk), server.id)
      ensures held == old(held) && unchanged(server)
    {
      var doc := ReadRaw();
      var i := Position(doc, server.id);
      if i < |doc.servers| { return false; }
      ValuesSnoc(doc.servers, server);
      doc.servers := doc.servers + [server];
      Write(doc);
      return true;
    }

    /** The records with another id, in their order. */
    method KeepOthers(servers: seq<Server>, id: string) returns (kept: seq<Server>)
      ensures Values(kept) == Without(Values(servers), id) && forall s :: s in kept ==> s in servers
    {
      kept := [];
      for i := 0 to |servers|
        invariant Values(kept) == Without(Values(servers)[..i], id) && forall s :: s in kept ==> s in servers
      {
        hide Without, Values;
        var s := servers[i];
        WithoutSnoc(Values(servers)[..i], s.Value(), id);
        NextValue(servers, i);
        if s.id != id {
          ValuesSnoc(kept, s);
          kept := kept + [s];
        }
      }
      assert Values(servers)[..|servers|] == Values(servers);
    }

    /** Whether anything was removed. */
    method Remove(id: string) returns (removed: bool)
      requires Valid()
      modifies this, cached
      ensures Valid() && disk == Step(old(disk), Op.Remove(id)) && held == old(held)
      ensures removed <==> HasId(old(disk), id)
    {
      hide Without, HasId;
      var doc := ReadRaw();
      var kept := KeepOthers(doc.servers, id);
      WithoutLength(disk, id);
      assert |kept| == |Values(kept)| && |doc.servers| == |disk|;
      removed := |kept| != |doc.servers|;
      doc.servers := kept;
      if removed {
        Write(doc);
      }
    }

    /** Replace a whole record. */
    method Update(id: string, server: Server) returns (r: Result<(), UpdateError>)
      requires Valid() && server in held
      modifies this, cached
      ensures Valid() && disk == Step(old(disk), Op.Update(id, server.Value()))
      ensures held == old(held) && unchanged(server)
      ensures r == if server.id != id then Err(IdChanged) else if HasId(old(disk), id) then Ok(()) else Err(Unknown)
    {
      if server.id != id { return Err(IdChanged); }
      var doc := ReadRaw();
      var i := Position(doc, id);
      if i == |doc.servers| { return Err(Unknown); }
      Replace(doc, i, server);
      return Ok(());
    }

    method Replace(doc: Document, i: nat, server: Server)
      requires i < |doc.servers|
      modifies this`disk, this`cached, this`current, doc
      ensures Valid() && disk == old(Values(doc.servers))[i := server.Value()]
    {
      ghost var before := Values(doc.servers);
      doc.servers := doc.servers[i := server];
      assert Values(doc.servers) == before[i := server.Value()];
      Write(doc);
    }

    /** The copy that the caller's function is given, once it has been changed in place. */
    method MutatedCopy(r: Rec, mutate: Rec -> Rec) returns (copy: Server)
      requires Valid()
      modifies this`held
      ensures Valid() && fresh(copy) && held == old(held) + {copy} && copy.Value() == mutate(r)
    {
      copy := new Server(r);
      held := held + {copy};
      var changed := mutate(copy.Value());
      copy.id, copy.fields := changed.id, changed.fields;
    }

    /**
      * Read, change and write one record under the lock. The caller's function gets a copy and may
      * change it in place, so what comes back is an object the caller holds.
      */
    method UpdateFields(id: string, mutate: Rec -> Rec) returns (r: Result<Server, UpdateError>)
      requires Valid()
      modifies this, cached
      ensures Valid() && old(held) <= held && (r.Ok? ==> r.value in held)
      ensures var found := Find(old(disk), id);
              if found.None? then r == Err(Unknown) && disk == old(disk)
              else if mutate(found.value).id != id then r == Err(IdChanged) && disk == old(disk)
              else
                && r.Ok? && fresh(r.value) && r.value.Value() == mutate(found.value)
                && disk == old(disk)[IndexOf(old(disk), id) := mutate(found.value)]
    {
      hide IndexOf;
      var doc := ReadRaw();
      var i := Position(doc, id);
      if i == |doc.servers| { return Err(Unknown); }
      assert Values(doc.servers)[i] == doc.servers[i].Value();
      var copy := MutatedCopy(doc.servers[i].Value(), mutate);
      if copy.id != id { return Err(IdChanged); }
      Replace(doc, i, copy);
      return Ok(copy);
    }
  }
}
