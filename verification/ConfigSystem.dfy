/**
 Both programs, one behind the other: the configuration program writes the shared memory, and the
 realtime module loads its slaves from it.
 */
module ConfigSystem {
  import opened ConfigChecks
  import opened ConfigFormat
  import opened ConfigEvents
  import opened ConfigParser
  import opened ConfigDocument
  import opened Options
  import R = ConfigRoundTrip
  import P = ConfigProgram
  import L = ConfigLoader

  /**
   From the handler calls to the loaded memory: the configuration program stops, or the module rejects
   the stream because two slaves of one master disagree about a sync unit, or it reads the stream to the
   end marker and every slave's memory holds what the document says.
   */
  lemma EndToEnd(ns: seq<Node>, z: Sizes) returns (t: State)
    requires z.Valid()
    ensures
      var s := HandleAll(EMPTY, NodesEvents(ns), z);
      if !Passes(ns) then s == None
      else
        && s != None
        && var r := Parse(INIT, Concat(Flatten(s.value)) + [Tok(TEnd)], z);
           if UnitsAgree(ns, 0) then r == Ok(t) && AllHold(Slaves(t), ns, z) else r == Rejected
  {
    hide AllHold, UnitsAgree, HandleAll, Parse, Flatten, Passes;
    AcceptedIffPasses(ns, z);
    ProducedTokens(ns, z);
    t := INIT;
    if GoodDocument(ns) {
      t := RoundTrip(ns, z);
    }
  }

  datatype Startup = Stopped | Failed | Loaded(loader: L.Loader)

  /** The two programs themselves. */
  method Configure(ns: seq<Node>, z: Sizes) returns (r: Startup)
    requires z.Valid()
    ensures r.Stopped? <==> !Passes(ns)
    ensures r.Failed? <==> Passes(ns) && !UnitsAgree(ns, 0)
    ensures r.Loaded? ==>
      && fresh(r.loader) && fresh(r.loader.Owned())
      && |r.loader.slaves| == |PlacedOf(ns, 0)|
      && forall i :: 0 <= i < |r.loader.slaves| ==>
           r.loader.slaves[i].Valid() && R.Holds(r.loader.slaves[i].Value(), PlacedOf(ns, 0)[i], z)
  {
    hide Passes, R.Holds, UnitsAgree, Parse, HandleAll, Flatten, GoodNodes, NodesChunks, Concat,
         L.Loader.Settled, L.Loader.BusIs, L.Loader.Is, L.SlaveMemory.Valid, L.SlaveMemory.Value, L.SlaveMemory.Repr;
    AcceptedIffPasses(ns, z);
    var shared := P.Produce(ns, z);
    if shared == null {
      return Stopped;
    }
    ghost var t := RoundTrip(ns, z);
    var loader := new L.Loader(z);
    var verdict;
    ghost var s;
    verdict, s := loader.Load(shared);
    if verdict != L.Read {
      return Failed;
    }
    loader.SettledMore(s);
    return Loaded(loader);
  }
}
