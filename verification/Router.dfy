/**
 The router and the consumer as objects: one engine per shard, each over its own disk.
 */
module RouterObject {
  import opened Memory
  import opened Segment
  import opened EngineSpec
  import opened EngineObject
  import opened Placement

  datatype Outcome = Dropped | Refused | Indexed | Failed

  ghost predicate StartedOn(e: Engine, codec: Codec, maxSize: int, dir: Directory, unreadable: set<string>)
    reads e, e.mem, e.disk
  {
    e.Valid() && e.codec == codec && e.maxSize == maxSize && e.View() == Started(codec, dir, unreadable)
  }

  /** Engines that share nothing. */
  ghost predicate Unshared(a: Engine, b: Engine) { a != b && a.mem != b.mem && a.disk != b.disk }

  ghost predicate Separate(engines: seq<Engine>) {
    forall i, j :: 0 <= i < |engines| && 0 <= j < |engines| && i != j ==> Unshared(engines[i], engines[j])
  }

  method MakeEngines(codec: Codec, maxSize: int, dirs: seq<Directory>, unreadable: set<string>)
    returns (made: seq<Engine>)
    ensures |made| == |dirs| && Separate(made)
    ensures forall j :: 0 <= j < |made| ==> fresh(made[j]) && fresh(made[j].mem) && fresh(made[j].disk)
    ensures forall j :: 0 <= j < |made| ==> StartedOn(made[j], codec, maxSize, dirs[j], unreadable)
    decreases |dirs|
  {
    if dirs == [] { return []; }
    var n := |dirs| - 1;
    made := MakeEngines(codec, maxSize, dirs[..n], unreadable);
    var disk := new Disk(dirs[n]);
    var engine := new Engine(codec, maxSize, disk, unreadable);
    made := made + [engine];
  }

  class Router {
    const codec: Codec
    const maxSize: int
    const engines: seq<Engine>

    ghost predicate Valid()
      reads engines, set e | e in engines :: e.mem
    {
      Separate(engines) && forall i :: 0 <= i < |engines| ==>
        engines[i].Valid() && engines[i].codec == codec && engines[i].maxSize == maxSize
    }

    ghost function ViewAt(i: nat): State
      requires i < |engines|
      reads engines[i], engines[i].mem, engines[i].disk
    {
      engines[i].View()
    }

    /** `NewRouter`: engine `i` starts from the segments of directory `i`. */
    constructor (codec: Codec, maxSize: int, dirs: seq<Directory>, unreadable: set<string>)
      ensures Valid() && this.codec == codec && this.maxSize == maxSize && |engines| == |dirs|
      ensures forall i :: 0 <= i < |dirs| ==> ViewAt(i) == Started(codec, dirs[i], unreadable)
    {
      var made := MakeEngines(codec, maxSize, dirs, unreadable);
      this.codec, this.maxSize, engines := codec, maxSize, made;
    }

    method Route(shardID: int) returns (e: Engine?)
      ensures e == if 0 <= shardID < |engines| then engines[shardID] else null
    {
      if shardID < 0 || shardID >= |engines| { return null; }
      e := engines[shardID];
    }

    /** `HandleMessageSharded`: an undecodable message is dropped, an unknown shard is
        refused, and otherwise exactly one engine changes. */
    method Handle(message: Option<IngestEvent>, io: FlushIO) returns (outcome: Outcome)
      requires Valid()
      modifies engines, (set e | e in engines :: e.mem), (set e | e in engines :: e.disk)
      ensures Valid()
      ensures outcome == Dropped <==> message.None?
      ensures outcome == Refused <==> message.Some? && !(0 <= message.value.shardID < |engines|)
      ensures forall i :: 0 <= i < |engines| ==>
                ViewAt(i) ==
                if message.Some? && i == message.value.shardID
                then EngineSpec.Indexed(codec, maxSize, old(ViewAt(i)), message.value.docID, Text(message.value), io)
                else old(ViewAt(i))
      ensures forall i :: 0 <= i < |engines| && message.Some? && i == message.value.shardID ==>
                (outcome == Outcome.Indexed <==>
                 IndexSucceeds(maxSize, old(ViewAt(i)), message.value.docID, Text(message.value), ViewAt(i)))
    {
      if message.None? { return Dropped; }
      var event := message.value;
      var engine := Route(event.shardID);
      if engine == null { return Refused; }
      var ok := IndexAt(engines, event.shardID, event.docID, event.title, event.body, io);
      outcome := if ok then Outcome.Indexed else Failed;
    }
  }

  /** Indexing in one of several engines leaves the others alone. */
  method IndexAt(engines: seq<Engine>, i: nat, id: string, title: string, body: string, io: FlushIO) returns (ok: bool)
    requires Separate(engines) && i < |engines| && forall j :: 0 <= j < |engines| ==> engines[j].Valid()
    modifies engines[i], engines[i].mem, engines[i].disk
    ensures forall j :: 0 <= j < |engines| ==> engines[j].Valid()
    ensures var e := engines[i];
            && e.View() == EngineSpec.Indexed(e.codec, e.maxSize, old(e.View()), id, title + " " + body, io)
            && (ok <==> IndexSucceeds(e.maxSize, old(e.View()), id, title + " " + body, e.View()))
    ensures forall j :: 0 <= j < |engines| && j != i ==> engines[j].View() == old(engines[j].View())
  {
    var engine := engines[i];
    ok := engine.IndexDocument(id, title, body, io);
    forall j | 0 <= j < |engines| && j != i
      ensures engines[j].Valid() && engines[j].View() == old(engines[j].View())
    {
      assert Unshared(engine, engines[j]);
      Kept(engines[j]);
    }
  }

  /** An engine none of whose objects changed is as it was. */
  twostate lemma Kept(e: Engine)
    requires unchanged(e) && unchanged(e.mem) && unchanged(e.disk)
    ensures e.View() == old(e.View()) && e.Valid() == old(e.Valid())
  {
  }

  /** `NewRouter` with the outcome of each shard's directory: without a readable directory the
      engine fails, the engines made so far are closed, which writes nothing because they
      hold nothing, and there is no router. */
  method NewRouter(codec: Codec, maxSize: int, dirs: seq<Option<Directory>>, unreadable: set<string>)
      returns (r: Router?)
    ensures r == null <==> exists i :: 0 <= i < |dirs| && dirs[i].None?
    ensures r != null ==> fresh(r) && r.Valid() && |r.engines| == |dirs|
    ensures r != null ==> forall i :: 0 <= i < |dirs| ==> r.ViewAt(i) == Started(codec, dirs[i].value, unreadable)
  {
    var readable: seq<Directory> := [];
    for i := 0 to |dirs|
      invariant |readable| == i
      invariant forall j :: 0 <= j < i ==> dirs[j] == Some(readable[j])
    {
      if dirs[i].None? { return null; }
      readable := readable + [dirs[i].value];
    }
    r := new Router(codec, maxSize, readable, unreadable);
  }
}
