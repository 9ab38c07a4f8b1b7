/**
 Starting a core beside the one it replaces: the document with its inbounds turned off,
 when that leaves nothing listening, and that a patch always leads back from it to the
 full document.
 */
module ConfigBootstrap {
  import opened Prelude
  import opened ConfigDiff
  import opened ConfigPatch

  // ---------- Turning the inbounds off ----------

  predicate IsPort(key: string) {
    key in InboundPorts()
  }

  function ZeroedPort(v: Value): Value {
    if AsInt64(v).Some? && AsInt64(v).value != 0 then Int(0) else v
  }

  predicate Enabled(v: Value) {
    v.Mapping? && "enable" in v.fields && v.fields["enable"] == Bool(true)
  }

  function ZeroedTun(v: Value): Value {
    if Enabled(v) then Mapping(v.fields["enable" := Bool(false)]) else v
  }

  function ZeroedField(key: string, v: Value): Value {
    if IsPort(key) then ZeroedPort(v) else if key == "tun" then ZeroedTun(v) else v
  }

  function Zeroed(doc: Document): Document {
    map key | key in doc :: ZeroedField(key, doc[key])
  }

  method ZeroInbounds(doc: Document) returns (zeroed: Document)
    ensures zeroed == Zeroed(doc)
  {
    var ports := InboundPorts();
    zeroed := doc;
    for i := 0 to |ports|
      invariant zeroed.Keys == doc.Keys
      invariant forall key | key in doc :: zeroed[key] == if key in ports[..i] then ZeroedPort(doc[key]) else doc[key]
    {
      var key := ports[i];
      assert key !in ports[..i];
      if key in zeroed && AsInt64(zeroed[key]).Some? && AsInt64(zeroed[key]).value != 0 {
        zeroed := zeroed[key := Int(0)];
      }
      assert ports[..i + 1] == ports[..i] + [key];
    }
    assert ports[..|ports|] == ports;
    if "tun" in zeroed && Enabled(zeroed["tun"]) {
      zeroed := zeroed["tun" := Mapping(zeroed["tun"].fields["enable" := Bool(false)])];
    }
  }

  // ---------- Whether anything would still listen ----------

  predicate EndsWith(s: string, t: string) {
    |t| <= |s| && s[|s| - |t|..] == t
  }

  predicate Contains(s: string, t: string) {
    exists i | 0 <= i <= |s| :: t <= s[i..]
  }

  predicate InboundLike(key: string) {
    EndsWith(key, "-port") || Contains(key, "listener") || Contains(key, "inbound") || Contains(key, "tunnel")
  }

  predicate IsCollection(key: string) {
    key == "listeners" || key == "tunnels"
  }

  predicate Nonempty(v: Value) {
    match v
    case Null => false
    case Str(text) => text != ""
    case List(items) => items != []
    case Mapping(fields) => fields != map[]
    case _ => true
  }

  predicate TuicOff(v: Value) {
    v.Mapping? && if "enable" in v.fields then v.fields["enable"] == Bool(false) else v.fields == map[]
  }

  /** The part of the overlap check that is about neither ports nor `tun`. */
  predicate FieldSilent(key: string, v: Value) {
    && (key == "tuic-server" ==> TuicOff(v))
    && (key in LegacyInbounds() ==> v == Str(""))
    && (IsCollection(key) ==> !Nonempty(v))
    && (InboundLike(key) ==> key in PatchFields() || IsCollection(key))
  }

  predicate FieldAccepted(key: string, v: Value) {
    && (IsPort(key) ==> AsInt64(v).Some?)
    && (key == "tun" ==> v.Mapping? && ("enable" in v.fields ==> v.fields["enable"].Bool?))
    && FieldSilent(key, v)
  }

  predicate Accepted(doc: Document) {
    forall key | key in doc :: FieldAccepted(key, doc[key])
  }

  datatype Block = DnsListens | InboundSurface

  predicate IsEmptyListen(v: Value) {
    v == Str("") || v == Null
  }

  /** What the overlap check answers: a `dns.listen` entry decides alone. */
  function Overlap(doc: Document): Option<Block> {
    var listen := DnsListen(doc);
    if listen.Some? then
      if IsEmptyListen(listen.value) then None else Some(if listen.value.Str? then DnsListens else InboundSurface)
    else if Accepted(doc) then None
    else Some(InboundSurface)
  }

  method OverlapBlock(doc: Document) returns (block: Option<Block>)
    ensures block == Overlap(doc)
  {
    hide InboundLike, PatchFields, FieldSilent, Contains, EndsWith;
    var listen := DnsListen(doc);
    if listen.Some? {
      match listen.value
      case Str(text) => return if text == "" then None else Some(DnsListens);
      case Null => return None;
      case _ => return Some(InboundSurface);
    }
    var ports := InboundPorts();
    for i := 0 to |ports|
      invariant forall j | 0 <= j < i :: ports[j] in doc ==> AsInt64(doc[ports[j]]).Some?
    {
      if ports[i] in doc && AsInt64(doc[ports[i]]).None? {
        assert !FieldAccepted(ports[i], doc[ports[i]]);
        return Some(InboundSurface);
      }
    }
    if "tun" in doc {
      var tun := doc["tun"];
      if !tun.Mapping? || ("enable" in tun.fields && !tun.fields["enable"].Bool?) {
        assert !FieldAccepted("tun", tun);
        return Some(InboundSurface);
      }
    }
    var silent := AllSilent(doc);
    if !silent {
      return Some(InboundSurface);
    }
    forall key | key in doc ensures FieldAccepted(key, doc[key]) {
    }
    return None;
  }

  /** The rest of the scan: the TUIC server, the legacy inbounds, the two collections, and
      keys that look like inbounds but are not known. */
  method AllSilent(doc: Document) returns (silent: bool)
    ensures silent <==> forall key | key in doc :: FieldSilent(key, doc[key])
  {
    hide InboundLike, PatchFields, Contains, EndsWith;
    if "tuic-server" in doc && !TuicOff(doc["tuic-server"]) {
      assert !FieldSilent("tuic-server", doc["tuic-server"]);
      return false;
    }
    var legacy := LegacyInbounds();
    for i := 0 to |legacy|
      invariant forall j | 0 <= j < i :: legacy[j] in doc ==> doc[legacy[j]] == Str("")
    {
      if legacy[i] in doc && doc[legacy[i]] != Str("") {
        assert !FieldSilent(legacy[i], doc[legacy[i]]);
        return false;
      }
    }
    var collections := ["listeners", "tunnels"];
    for i := 0 to 2
      invariant forall j | 0 <= j < i :: collections[j] in doc ==> !Nonempty(doc[collections[j]])
    {
      if collections[i] in doc && Nonempty(doc[collections[i]]) {
        assert !FieldSilent(collections[i], doc[collections[i]]);
        return false;
      }
    }
    assert collections[0] == "listeners" && collections[1] == "tunnels";
    silent := UnknownAbsent(doc);
    if !silent {
      return;
    }
    forall key | key in doc ensures FieldSilent(key, doc[key]) {
    }
  }

  method UnknownAbsent(doc: Document) returns (absent: bool)
    ensures absent <==> forall key | key in doc :: InboundLike(key) ==> key in PatchFields() || IsCollection(key)
  {
    hide InboundLike, PatchFields;
    var todo := doc.Keys;
    while todo != {}
      invariant todo <= doc.Keys
      invariant forall key | key in doc && key !in todo ::
        InboundLike(key) ==> key in PatchFields() || IsCollection(key)
      decreases todo
    {
      var key :| key in todo;
      if InboundLike(key) && key !in PatchFields() && !IsCollection(key) {
        return false;
      }
      todo := todo - {key};
    }
    return true;
  }

  // ---------- What the overlap check is for ----------

  /** The field makes the core listen. */
  predicate Active(key: string, v: Value) {
    || (IsPort(key) && v.Int? && v.number != 0)
    || ((key == "tun" || key == "tuic-server") && Enabled(v))
    || (key in LegacyInbounds() && v.Str? && v.text != "")
    || (IsCollection(key) && ((v.List? && v.items != []) || (v.Mapping? && v.fields != map[])))
  }

  predicate Idle(doc: Document) {
    forall key | key in doc :: !Active(key, doc[key])
  }

  /** The field listens whether or not ports and `tun` are turned off. */
  predicate Survives(key: string, v: Value) {
    || (IsPort(key) && v.Int? && !(-0x8000_0000_0000_0000 <= v.number < 0x8000_0000_0000_0000))
    || (key == "tuic-server" && Enabled(v))
    || (key in LegacyInbounds() && v.Str? && v.text != "")
    || (IsCollection(key) && ((v.List? && v.items != []) || (v.Mapping? && v.fields != map[])))
  }

  /** The field does not survive, but is not of a form that is known to be harmless. */
  predicate Doubtful(key: string, v: Value) {
    || (IsPort(key) && !v.Int?)
    || (key == "tun" && (!v.Mapping? || ("enable" in v.fields && !v.fields["enable"].Bool?)))
    || (key == "tuic-server"
        && (!v.Mapping? || (if "enable" in v.fields then !v.fields["enable"].Bool? else v.fields != map[])))
    || (key in LegacyInbounds() && !v.Str?)
    || (IsCollection(key) && !v.Null? && !v.List? && !v.Mapping? && v != Str(""))
    || (InboundLike(key) && key !in PatchFields() && !IsCollection(key))
  }

  ghost predicate SomeSurvives(doc: Document) {
    exists key | key in doc :: Survives(key, doc[key])
  }

  ghost predicate SomeDoubtful(doc: Document) {
    exists key | key in doc :: Doubtful(key, doc[key])
  }

  /** The classes of keys do not overlap. */
  lemma KeyClasses(key: string)
    ensures IsPort(key) || key == "tun" ==> key !in LegacyInbounds() && key != "tuic-server" && !IsCollection(key)
    ensures IsPort(key) ==> key != "tun"
    ensures key == "tuic-server" || key in LegacyInbounds() || IsCollection(key) ==> !IsPort(key) && key != "tun"
    ensures !(key == "tuic-server" && key in LegacyInbounds())
    ensures IsCollection(key) ==> key != "tuic-server" && key !in LegacyInbounds()
  {
  }

  lemma SurvivesZeroing(key: string, v: Value)
    ensures Active(key, ZeroedField(key, v)) <==> Survives(key, v)
  {
    hide InboundPorts, LegacyInbounds;
    KeyClasses(key);
  }

  lemma AcceptedField(key: string, v: Value)
    ensures !FieldAccepted(key, v) <==> Survives(key, v) || Doubtful(key, v)
  {
    hide InboundPorts, LegacyInbounds, InboundLike, PatchFields;
    KeyClasses(key);
  }

  /** Turning ports and `tun` off leaves the document idle exactly when nothing survives. */
  lemma IdleExact(doc: Document)
    ensures Idle(Zeroed(doc)) <==> !SomeSurvives(doc)
  {
    hide Active, Survives, ZeroedField;
    assert Zeroed(doc).Keys == doc.Keys;
    forall key | key in doc ensures Active(key, Zeroed(doc)[key]) <==> Survives(key, doc[key]) {
      SurvivesZeroing(key, doc[key]);
    }
  }

  /** Without a `dns.listen` entry exactly the documents with a surviving or a doubtful field
      are refused. */
  lemma RefusedExact(doc: Document)
    requires DnsListen(doc).None?
    ensures Overlap(doc).Some? <==> SomeSurvives(doc) || SomeDoubtful(doc)
  {
    hide FieldAccepted, Survives, Doubtful;
    forall key | key in doc
      ensures !FieldAccepted(key, doc[key]) <==> Survives(key, doc[key]) || Doubtful(key, doc[key])
    {
      AcceptedField(key, doc[key]);
    }
  }

  /** Without a `dns.listen` entry a document that may overlap is idle once ports and `tun`
      are off. */
  lemma OverlapIsIdle(doc: Document)
    requires DnsListen(doc).None? && Overlap(doc).None?
    ensures Idle(Zeroed(doc))
  {
    hide Idle, Overlap, SomeSurvives, SomeDoubtful;
    RefusedExact(doc);
    IdleExact(doc);
  }

  /** The harmless documents that are refused: nothing survives, but something is doubtful. */
  lemma HarmlessRefused(doc: Document)
    requires DnsListen(doc).None?
    ensures (Idle(Zeroed(doc)) && Overlap(doc).Some?) <==> (!SomeSurvives(doc) && SomeDoubtful(doc))
  {
    hide Idle, Overlap, SomeSurvives, SomeDoubtful;
    RefusedExact(doc);
    IdleExact(doc);
  }

  /** Such a document. */
  lemma NullLegacyRefused()
    ensures var doc: Document := map["ss-config" := Null];
      Overlap(doc) == Some(InboundSurface) && Idle(Zeroed(doc))
  {
    var doc: Document := map["ss-config" := Null];
    assert !FieldAccepted("ss-config", doc["ss-config"]);
    assert Zeroed(doc)["ss-config"] == Null by {
      assert !IsPort("ss-config");
    }
  }

  /** The guarantee of the overlap check fails exactly when an empty `dns.listen` ends it early and
      some field survives. */
  lemma OverlapExact(doc: Document)
    ensures (Overlap(doc).None? ==> Idle(Zeroed(doc)))
       <==> !(DnsListen(doc).Some? && IsEmptyListen(DnsListen(doc).value) && SomeSurvives(doc))
  {
    hide Accepted, Idle, SomeSurvives, DnsListen;
    IdleExact(doc);
    if DnsListen(doc).None? && Overlap(doc).None? {
      OverlapIsIdle(doc);
    }
  }

  /** A SOCKS listener is let through when `dns.listen` is empty. */
  lemma EmptyListenHidesListeners()
    ensures var inbound := Mapping(map["name" := Str("extra"), "type" := Str("socks"), "port" := Int(1080)]);
      var doc: Document := map["dns" := Mapping(map["listen" := Str("")]), "listeners" := List([inbound])];
      Overlap(doc).None? && !Idle(Zeroed(doc)) && Overlap(doc - {"dns"}) == Some(InboundSurface)
  {
    var inbound := Mapping(map["name" := Str("extra"), "type" := Str("socks"), "port" := Int(1080)]);
    var doc: Document := map["dns" := Mapping(map["listen" := Str("")]), "listeners" := List([inbound])];
    assert Zeroed(doc)["listeners"] == List([inbound]) by {
      assert !IsPort("listeners");
    }
    assert Active("listeners", List([inbound]));
    assert (doc - {"dns"})["listeners"] == List([inbound]);
    assert !FieldAccepted("listeners", List([inbound]));
  }

  // ---------- The way back to the full document ----------

  lemma ZeroedAt(doc: Document, key: string)
    ensures Get(Zeroed(doc), key) == if key in doc then Some(ZeroedField(key, doc[key])) else None
  {
  }

  /** Whatever turning the inbounds off changes, a patch can change back. */
  lemma ZeroedChange(doc: Document, path: Path)
    requires IsChange(Whole(Zeroed(doc)), Whole(doc), path)
    ensures PathPatchable(path) && ValueAt(Whole(doc), path).Some?
    ensures path[0] == "tun" ==> "tun" in doc && Enabled(doc["tun"])
    ensures path[0] != "tuic-server"
  {
    hide Zeroed, PatchFields, TunFields, TuicFields;
    ChangeHasRoot(Zeroed(doc), doc, path);
    DocumentChange(Zeroed(doc), doc, path);
    var key, rest := path[0], path[1..];
    ZeroedAt(doc, key);
    TunIsPatched();
    EnableIsPatched();
    if IsPort(key) {
      PortIsPatched(key);
      PortChange(doc[key], rest);
      assert |path| == 1;
    } else {
      TunChange(doc[key], rest);
      assert |path| == 2 && path[1] == rest[0] && path[1] == "enable";
    }
  }

  lemma PortIsPatched(key: string)
    requires IsPort(key)
    ensures key in PatchFields() && NestedFields(key).None? && key != "tun" && key != "tuic-server"
  {
    hide TunFields, TuicFields;
  }

  lemma TunIsPatched()
    ensures "tun" in PatchFields() && NestedFields("tun") == Some(TunFields())
  {
    hide TunFields, TuicFields;
  }

  lemma EnableIsPatched()
    ensures "enable" in TunFields()
  {
  }

  lemma PortChange(v: Value, rest: Path)
    requires IsChange(Some(ZeroedPort(v)), Some(v), rest)
    ensures rest == [] && ValueAt(Some(v), rest) == Some(v)
  {
  }

  lemma TunChange(v: Value, rest: Path)
    requires IsChange(Some(ZeroedTun(v)), Some(v), rest)
    ensures Enabled(v) && rest == ["enable"] && ValueAt(Some(v), rest) == Some(Bool(true))
  {
    var c, d := Some(ZeroedTun(v)), Some(v);
    assert Enabled(v) && "enable" in Keys(c);
    var f := rest[0];
    assert f != "enable" ==> Child(c, f) == Child(d, f);
    assert IsChange(Child(c, f), Child(d, f), rest[1..]);
    assert Child(c, "enable") == Some(Bool(false)) && Child(d, "enable") == Some(Bool(true));
    assert rest[1..] == [];
    assert rest == [f] + rest[1..];
    assert ValueAt(d, rest) == ValueAt(Child(d, f), rest[1..]);
  }

  lemma BootstrapPatchable(doc: Document)
    ensures Patchable(Zeroed(doc), doc) && DnsListen(Zeroed(doc)) == DnsListen(doc)
  {
    hide PathPatchable, ZeroedField;
    forall path | IsChange(Whole(Zeroed(doc)), Whole(doc), path)
      ensures PathPatchable(path) && ValueAt(Whole(doc), path).Some?
    {
      ZeroedChange(doc, path);
    }
    ZeroedAt(doc, "dns");
    DnsUntouched();
  }

  lemma DnsUntouched()
    ensures forall v :: ZeroedField("dns", v) == v
  {
  }

  lemma BootstrapEnables(doc: Document)
    requires Patchable(Zeroed(doc), doc)
    ensures EnableOk(Assembled(Zeroed(doc), doc))
  {
    hide Patchable, Zeroed, TunFields, TuicFields, PatchFields, PathPatchable, FieldOk;
    CanAssemble(Zeroed(doc), doc);
    TunIsPatched();
    EnableIsPatched();
    if "tun" in Roots(Zeroed(doc), doc) {
      var path := RootHasChange(Zeroed(doc), doc, "tun");
      ZeroedChange(doc, ["tun"] + path);
    }
    if "tuic-server" in Roots(Zeroed(doc), doc) {
      var path := RootHasChange(Zeroed(doc), doc, "tuic-server");
      ZeroedChange(doc, ["tuic-server"] + path);
    }
  }

  /** From the document without inbounds to the full one there is nothing to do or a patch
      that rebuilds it; only the typed decode can refuse it. */
  lemma BootstrapRestores(doc: Document, decodes: Document -> bool)
    ensures Patchable(Zeroed(doc), doc)
    ensures var patch := Assembled(Zeroed(doc), doc);
      && Overlay(Zeroed(doc), patch) == doc
      && Classified(Zeroed(doc), doc, decodes) ==
         if Zeroed(doc) == doc then Noop else if decodes(patch) then Patch(patch) else Switch
  {
    hide Patchable, Zeroed, EnableOk, Overlay, Assembled, Assembles, DnsListen, Reloadable;
    BootstrapPatchable(doc);
    BootstrapEnables(doc);
    AssembledAssembles(Zeroed(doc), doc);
    PatchSound(Zeroed(doc), doc, Assembled(Zeroed(doc), doc));
  }

  // ---------- The controller ----------

  /** The document as it is run: with a managed endpoint under `local`, or with the local
      transports taken out. */
  function Managed(doc: Document, endpoint: Option<string>, keepHttp: bool, local: string): Document {
    var bare := doc - {"external-controller-pipe", "external-controller-unix"};
    if endpoint.None? then bare
    else (if keepHttp then bare else bare - {"external-controller", "external-controller-tls"})
         [local := Str(endpoint.value)]
  }

  predicate IsLocal(key: string) {
    key == "external-controller-pipe" || key == "external-controller-unix"
  }

  lemma ManagedKeepsRest(doc: Document, endpoint: Option<string>, keepHttp: bool, local: string, key: string)
    requires IsLocal(local) && key !in ControllerFields()
    ensures Get(Managed(doc, endpoint, keepHttp, local), key) == Get(doc, key)
  {
  }

  /** Turning the inbounds off and managing the controller touch different fields. */
  lemma ZeroedManaged(doc: Document, endpoint: Option<string>, keepHttp: bool, local: string)
    requires IsLocal(local)
    ensures Managed(Zeroed(doc), endpoint, keepHttp, local) == Zeroed(Managed(doc, endpoint, keepHttp, local))
  {
    hide ZeroedField;
    ControllerUntouched();
    var a, b := Managed(Zeroed(doc), endpoint, keepHttp, local), Zeroed(Managed(doc, endpoint, keepHttp, local));
    assert a.Keys == b.Keys;
    assert forall key | key in a :: a[key] == b[key];
  }

  lemma ControllerUntouched()
    ensures forall v ::
      ZeroedField("external-controller-pipe", v) == v && ZeroedField("external-controller-unix", v) == v
  {
  }

  /** Managing the controller opens no inbound. */
  lemma ManagedIdle(doc: Document, endpoint: Option<string>, keepHttp: bool, local: string)
    requires IsLocal(local) && Idle(doc)
    ensures Idle(Managed(doc, endpoint, keepHttp, local))
  {
    var managed := Managed(doc, endpoint, keepHttp, local);
    hide Active;
    forall key | key in managed ensures !Active(key, managed[key]) {
      if key in ControllerFields() {
        ControllerOpensNothing(key, managed[key]);
      } else {
        ManagedKeepsRest(doc, endpoint, keepHttp, local, key);
      }
    }
  }

  lemma ControllerOpensNothing(key: string, v: Value)
    requires key in ControllerFields()
    ensures !Active(key, v)
  {
  }

  /** What runs beside the old core: the document without inbounds is idle, except behind a
      `dns.listen` entry that is empty. */
  lemma BootstrapIdle(source: Document, endpoint: Option<string>, keepHttp: bool, local: string)
    requires IsLocal(local) && Overlap(source).None?
    ensures var boot := Managed(Zeroed(source), endpoint, keepHttp, local);
      Idle(boot) || (DnsListen(boot).Some? && IsEmptyListen(DnsListen(boot).value))
  {
    hide Idle, Zeroed, Accepted, Managed;
    var boot := Managed(Zeroed(source), endpoint, keepHttp, local);
    if DnsListen(source).None? {
      OverlapIsIdle(source);
      ManagedIdle(Zeroed(source), endpoint, keepHttp, local);
    } else {
      ListenKept(source, endpoint, keepHttp, local);
    }
  }

  lemma ListenKept(source: Document, endpoint: Option<string>, keepHttp: bool, local: string)
    requires IsLocal(local)
    ensures DnsListen(Managed(Zeroed(source), endpoint, keepHttp, local)) == DnsListen(source)
  {
    hide Zeroed;
    ManagedKeepsRest(Zeroed(source), endpoint, keepHttp, local, "dns");
    ZeroedAt(source, "dns");
  }

  /** A graceful switch can always lead from its first document to its last one. */
  lemma GracefulRestores(source: Document, endpoint: Option<string>, keepHttp: bool, local: string,
                         decodes: Document -> bool)
    requires IsLocal(local)
    ensures var boot, full := Managed(Zeroed(source), endpoint, keepHttp, local),
            Managed(source, endpoint, keepHttp, local);
      && boot == Zeroed(full) && Patchable(boot, full) && Overlay(boot, Assembled(boot, full)) == full
      && Classified(boot, full, decodes) ==
         if boot == full then Noop else if decodes(Assembled(boot, full)) then Patch(Assembled(boot, full)) else Switch
  {
    hide Managed, Zeroed, Patchable, Overlay, Assembled, Classified;
    ZeroedManaged(source, endpoint, keepHttp, local);
    BootstrapRestores(Managed(source, endpoint, keepHttp, local), decodes);
  }

  // ---------- Classifying a whole change ----------

  /** One side of a change: the loaded document and the one that is run. */
  datatype View = View(source: Document, effective: Document)

  predicate ControllerPath(path: Path) {
    path != [] && (path[0] in ControllerFields() || (path[0] == "dns" && |path| > 1 && path[1] == "listen"))
  }

  ghost predicate TouchesController(c: Document, d: Document) {
    exists path :: IsChange(Whole(c), Whole(d), path) && ControllerPath(path)
  }

  lemma ReportsController(changes: seq<DiffEntry>, c: Document, d: Document)
    requires Reports(changes, Whole(c), Whole(d), [])
    ensures TouchesController(c, d) <==> exists e | e in changes :: ControllerPath(e.path)
  {
    hide Reports, ControllerPath;
    if TouchesController(c, d) {
      var path :| IsChange(Whole(c), Whole(d), path) && ControllerPath(path);
      ReportedChange(changes, c, d, path);
      assert ControllerPath(DiffEntry(path, ValueAt(Whole(d), path)).path);
    }
    forall e | e in changes && ControllerPath(e.path) ensures TouchesController(c, d) {
      ReportedEntry(changes, c, d, e);
    }
  }

  /** The kind of a whole change: the process first, then the controller, then the rest. */
  ghost function Classification(c: View, d: View, specChanged: bool, mihomo: bool, decodes: Document -> bool): Change {
    if specChanged then Switch
    else if !mihomo then if c == d then Noop else Switch
    else if TouchesController(c.source, d.source) then Switch
    else Classified(c.effective, d.effective, decodes)
  }

  method Classify(c: View, d: View, specChanged: bool, mihomo: bool, decodes: Document -> bool) returns (change: Change)
    ensures change == Classification(c, d, specChanged, mihomo, decodes)
    ensures change == Noop ==> c.effective == d.effective
    ensures !specChanged && c == d ==> change == Noop
    ensures change != Switch ==> forall key | key in ControllerFields() :: Get(c.source, key) == Get(d.source, key)
  {
    hide Reports, ControllerFields, ControllerPath, Classified, TouchesController, Patchable, Reloadable;
    hide PathPatchable, PathReloadable;
    if specChanged {
      return Switch;
    }
    var changes := Diff(c.source, d.source);
    ReportsPatchable(changes, c.source, d.source);
    if !mihomo {
      var effective := Diff(c.effective, d.effective);
      ReportsPatchable(effective, c.effective, d.effective);
      return if changes == [] && effective == [] then Noop else Switch;
    }
    ReportsController(changes, c.source, d.source);
    if exists e | e in changes :: ControllerPath(e.path) {
      return Switch;
    }
    ControllersKept(changes, c.source, d.source);
    NoopIffEqual(c.effective, d.effective, decodes);
    change := ClassifyDocuments(c.effective, d.effective, decodes);
  }

  lemma ControllersKept(changes: seq<DiffEntry>, c: Document, d: Document)
    requires Reports(changes, Whole(c), Whole(d), []) && forall e | e in changes :: !ControllerPath(e.path)
    ensures forall key | key in ControllerFields() :: Get(c, key) == Get(d, key)
  {
    hide Reports, ControllerFields;
    forall key | key in ControllerFields() ensures Get(c, key) == Get(d, key) {
      if key in Roots(c, d) {
        var e := RootReported(changes, c, d, key);
      }
    }
  }

  lemma RootReported(changes: seq<DiffEntry>, c: Document, d: Document, key: string) returns (e: DiffEntry)
    requires Reports(changes, Whole(c), Whole(d), []) && key in Roots(c, d)
    ensures e in changes && e.path != [] && e.path[0] == key
  {
    hide Reports;
    var path := RootHasChange(c, d, key);
    ReportedChange(changes, c, d, [key] + path);
    e := DiffEntry([key] + path, ValueAt(Whole(d), [key] + path));
  }
}
