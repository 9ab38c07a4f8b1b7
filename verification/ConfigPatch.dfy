/**
 What a change of a Mihomo document asks for: nothing, a patch of the running core, a
 reload, or a new process.
 */
module ConfigPatch {
  import opened Prelude
  import opened ConfigDiff

  // ---------- Field tables ----------

  function InboundPorts(): seq<string> {
    ["port", "socks-port", "redir-port", "tproxy-port", "mixed-port"]
  }

  function PatchFields(): set<string> {
    {"port", "socks-port", "redir-port", "tproxy-port", "mixed-port", "tun", "tuic-server", "ss-config", "vmess-config",
     "tcptun-config", "udptun-config", "allow-lan", "skip-auth-prefixes", "lan-allowed-ips", "lan-disallowed-ips",
     "bind-address", "mode", "log-level", "ipv6", "sniffing", "tcp-concurrent", "find-process-mode", "interface-name"}
  }

  function TunFields(): set<string> {
    {"enable", "device", "stack", "dns-hijack", "auto-route", "auto-detect-interface", "mtu", "gso", "gso-max-size",
     "inet6-address", "iproute2-table-index", "iproute2-rule-index", "auto-redirect", "auto-redirect-input-mark",
     "auto-redirect-output-mark", "auto-redirect-iproute2-fallback-rule-index", "loopback-address", "strict-route",
     "route-address", "route-address-set", "route-exclude-address", "route-exclude-address-set", "include-interface",
     "exclude-interface", "include-uid", "include-uid-range", "exclude-uid", "exclude-uid-range",
     "include-android-user",
     "include-package", "exclude-package", "include-mac-address", "exclude-mac-address", "endpoint-independent-nat",
     "udp-timeout", "icmp-timeout", "file-descriptor", "inet4-route-address", "inet6-route-address",
     "inet4-route-exclude-address", "inet6-route-exclude-address", "recvmsgx", "sendmsgx"}
  }

  function TuicFields(): set<string> {
    {"enable", "listen", "token", "users", "certificate", "private-key", "congestion-controller", "max-idle-time",
     "authentication-timeout", "alpn", "max-udp-relay-packet-size", "cwnd", "bbr-profile"}
  }

  function ReloadFields(): set<string> {
    {"proxies", "proxy-groups", "proxy-providers", "rule-providers", "providers", "rules", "hosts", "dns"}
  }

  function ControllerFields(): set<string> {
    {"external-controller", "external-controller-tls", "external-controller-pipe", "external-controller-unix", "secret"}
  }

  function LegacyInbounds(): seq<string> {
    ["ss-config", "vmess-config", "tcptun-config", "udptun-config"]
  }

  // ---------- Looking into documents ----------

  function Get(doc: Document, key: string): Option<Value> {
    if key in doc then Some(doc[key]) else None
  }

  function Whole(doc: Document): Option<Value> {
    Some(Mapping(doc))
  }

  function DnsListen(doc: Document): Option<Value> {
    Child(Get(doc, "dns"), "listen")
  }

  /** Integers outside the signed 64-bit range, like every other value, are no ports. */
  function AsInt64(v: Value): Option<int> {
    if v.Int? && -0x8000_0000_0000_0000 <= v.number < 0x8000_0000_0000_0000 then Some(v.number) else None
  }

  lemma GetIsChild(doc: Document, key: string)
    ensures Get(doc, key) == Child(Whole(doc), key)
  {
  }

  /** The top-level keys under which two documents differ. */
  ghost function Roots(c: Document, d: Document): set<string> {
    set k | k in c.Keys + d.Keys && Get(c, k) != Get(d, k)
  }

  lemma SameGets(c: Document, d: Document)
    requires forall k :: Get(c, k) == Get(d, k)
    ensures c == d
  {
    forall k ensures k in c <==> k in d
             ensures k in c ==> c[k] == d[k]
    {
      assert Get(c, k) == Get(d, k);
    }
  }

  lemma DocumentsDescend(c: Document, d: Document)
    requires c != d
    ensures Whole(c) != Whole(d) && Descends(Whole(c), Whole(d))
  {
    if Keys(Whole(c)) + Keys(Whole(d)) == {} {
      EmptyDocuments(c, d);
      assert false;
    }
  }

  lemma EmptyDocuments(c: Document, d: Document)
    requires Keys(Whole(c)) + Keys(Whole(d)) == {}
    ensures c == d
  {
    assert c.Keys == {} && d.Keys == {};
  }

  /** Changes of documents are changes of their fields. */
  lemma DocumentChange(c: Document, d: Document, path: Path)
    requires c != d
    ensures IsChange(Whole(c), Whole(d), path) <==> path != [] && IsChange(Get(c, path[0]), Get(d, path[0]), path[1..])
    ensures path != [] ==> ValueAt(Whole(d), path) == ValueAt(Get(d, path[0]), path[1..])
  {
    DocumentsDescend(c, d);
    if path != [] {
      GetIsChild(c, path[0]);
      GetIsChild(d, path[0]);
    }
  }

  lemma RootHasChange(c: Document, d: Document, key: string) returns (path: Path)
    requires key in Roots(c, d)
    ensures IsChange(Get(c, key), Get(d, key), path) && IsChange(Whole(c), Whole(d), [key] + path)
    ensures ValueAt(Whole(d), [key] + path) == ValueAt(Get(d, key), path)
  {
    path := ChangeExists(Get(c, key), Get(d, key));
    assert ([key] + path)[1..] == path;
    DocumentChange(c, d, [key] + path);
  }

  lemma ChangeHasRoot(c: Document, d: Document, path: Path)
    requires IsChange(Whole(c), Whole(d), path)
    ensures c != d && path != [] && path[0] in Roots(c, d)
  {
    DocumentChange(c, d, path);
    var k := path[0];
    assert IsChange(Get(c, k), Get(d, k), path[1..]);
    assert Get(c, k) != Get(d, k);
  }

  // ---------- Classification ----------

  /** `document` is the patch as assembled; `Invalid` is the error of an ill-formed one. */
  datatype Change = Noop | Patch(document: Document) | Reload | Switch | Invalid

  function NestedFields(root: string): Option<set<string>> {
    if root == "tun" then Some(TunFields()) else if root == "tuic-server" then Some(TuicFields()) else None
  }

  predicate PathPatchable(path: Path) {
    && path != [] && path[0] in PatchFields()
    && var nested := NestedFields(path[0]);
       if nested.Some? then |path| > 1 && path[1] in nested.value else |path| == 1
  }

  predicate PathReloadable(path: Path) {
    && path != [] && path[0] in ReloadFields()
    && !(path[0] == "dns" && |path| > 1 && path[1] == "listen") && !(path[0] == "dns" && |path| == 1)
  }

  ghost predicate Patchable(c: Document, d: Document) {
    forall path | IsChange(Whole(c), Whole(d), path) :: PathPatchable(path) && ValueAt(Whole(d), path).Some?
  }

  ghost predicate Reloadable(c: Document, d: Document) {
    forall path | IsChange(Whole(c), Whole(d), path) :: PathReloadable(path)
  }

  function Filtered(v: Value, allowed: set<string>): Value
    requires v.Mapping?
  {
    Mapping(map k | k in v.fields && k in allowed :: v.fields[k])
  }

  predicate FieldOk(root: string, v: Value) {
    NestedFields(root).Some? ==> v.Mapping?
  }

  function PatchField(root: string, v: Value): Value
    requires FieldOk(root, v)
  {
    if NestedFields(root).Some? then Filtered(v, NestedFields(root).value) else v
  }

  predicate HasEnable(doc: Document, root: string) {
    root in doc ==> doc[root].Mapping? && "enable" in doc[root].fields && doc[root].fields["enable"].Bool?
  }

  predicate EnableOk(doc: Document) {
    HasEnable(doc, "tun") && HasEnable(doc, "tuic-server")
  }

  ghost predicate Assembles(doc: Document, d: Document, roots: set<string>) {
    && doc.Keys == roots && roots <= d.Keys
    && forall k | k in roots :: FieldOk(k, d[k]) && doc[k] == PatchField(k, d[k])
  }

  /** Patching a running core: whole fields, except that the two nested ones are merged. */
  function Overlay(doc: Document, patch: Document): Document {
    map k | k in doc.Keys + patch.Keys ::
      if k !in patch then doc[k]
      else if NestedFields(k).Some? && patch[k].Mapping? then Merge(Get(doc, k), patch[k])
      else patch[k]
  }

  function Merge(v: Option<Value>, patch: Value): Value
    requires patch.Mapping?
  {
    Mapping((if IsMapping(v) then v.value.fields else map[]) + patch.fields)
  }

  // ---------- A patch rebuilds the desired document ----------

  lemma MergeRebuilds(v: Option<Value>, d: Value, allowed: set<string>)
    requires v != Some(d)
    requires forall p | IsChange(v, Some(d), p) :: p != [] && p[0] in allowed && ValueAt(Some(d), p).Some?
    ensures d.Mapping? && Merge(v, Filtered(d, allowed)) == d
  {
    var first := ChangeExists(v, Some(d));
    assert d.Mapping? && (v.None? || IsMapping(v));
    var was := if IsMapping(v) then v.value.fields else map[];
    forall f ensures f in d.fields || f in was ==> Get(was + Filtered(d, allowed).fields, f) == Get(d.fields, f) {
      MergeField(v, d, allowed, f);
    }
    SameFields(was + Filtered(d, allowed).fields, d.fields);
  }

  lemma SameFields(a: Document, b: Document)
    requires forall f | f in a || f in b :: Get(a, f) == Get(b, f)
    ensures a == b
  {
    forall f ensures Get(a, f) == Get(b, f) {
    }
    SameGets(a, b);
  }

  lemma MergeField(v: Option<Value>, d: Value, allowed: set<string>, f: string)
    requires v != Some(d) && d.Mapping? && (v.None? || IsMapping(v)) && Descends(v, Some(d))
    requires forall p | IsChange(v, Some(d), p) :: p != [] && p[0] in allowed && ValueAt(Some(d), p).Some?
    ensures var was := if IsMapping(v) then v.value.fields else map[];
      Get(was + Filtered(d, allowed).fields, f) == Get(d.fields, f)
  {
    if Child(v, f) != Child(Some(d), f) {
      var rest := ChangeExists(Child(v, f), Child(Some(d), f));
      assert ([f] + rest)[0] == f && ([f] + rest)[1..] == rest;
      assert IsChange(v, Some(d), [f] + rest);
      SomewhereInside(Some(d), [f] + rest);
    }
  }

  /** A patchable root either is replaced whole or has only listed fields changed. */
  lemma RootRebuilds(c: Document, d: Document, key: string)
    requires Patchable(c, d) && key in Roots(c, d)
    ensures key in PatchFields() && key in d && FieldOk(key, d[key])
    ensures NestedFields(key).Some? ==> Merge(Get(c, key), PatchField(key, d[key])) == d[key]
  {
    hide PatchFields, TunFields, TuicFields;
    var path := RootHasChange(c, d, key);
    assert PathPatchable([key] + path);
    SomewhereInside(Whole(d), [key] + path);
    var nested := NestedFields(key);
    if nested.Some? {
      forall p | IsChange(Get(c, key), Some(d[key]), p)
        ensures p != [] && p[0] in nested.value && ValueAt(Some(d[key]), p).Some?
      {
        var q := [key] + p;
        assert q[0] == key && q[1..] == p;
        DocumentChange(c, d, q);
        assert PathPatchable(q);
        assert |q| > 1 && q[1] == p[0];
      }
      MergeRebuilds(Get(c, key), d[key], nested.value);
    }
  }

  lemma OverlayAt(doc: Document, patch: Document, key: string)
    ensures Get(Overlay(doc, patch), key) ==
      if key !in patch then Get(doc, key)
      else if NestedFields(key).Some? && patch[key].Mapping? then Some(Merge(Get(doc, key), patch[key]))
      else Some(patch[key])
  {
    hide NestedFields;
  }

  /** Patching the current document with the assembled patch gives the desired document. */
  lemma PatchSound(c: Document, d: Document, doc: Document)
    requires Patchable(c, d) && Assembles(doc, d, Roots(c, d))
    ensures Overlay(c, doc) == d && doc.Keys <= PatchFields()
  {
    hide PatchFields, NestedFields, Overlay, Patchable, Merge, PatchField;
    forall key ensures Get(Overlay(c, doc), key) == Get(d, key) {
      OverlayAt(c, doc, key);
      if key in Roots(c, d) {
        RootRebuilds(c, d, key);
        PatchFieldIs(key, d[key]);
      }
    }
    SameGets(Overlay(c, doc), d);
    forall key | key in doc.Keys ensures key in PatchFields() {
      RootRebuilds(c, d, key);
    }
  }

  lemma PatchFieldIs(key: string, v: Value)
    requires FieldOk(key, v)
    ensures if NestedFields(key).Some? then PatchField(key, v).Mapping? else PatchField(key, v) == v
  {
  }

  /** What a patch can rely on is always there: every root can be assembled. */
  lemma CanAssemble(c: Document, d: Document)
    requires Patchable(c, d)
    ensures forall key | key in Roots(c, d) :: key in d && FieldOk(key, d[key])
  {
    hide Patchable, FieldOk;
    forall key | key in Roots(c, d) ensures key in d && FieldOk(key, d[key]) {
      RootRebuilds(c, d, key);
    }
  }

  /** The patch of a patchable change. */
  ghost function Assembled(c: Document, d: Document): Document
    requires Patchable(c, d)
  {
    CanAssemble(c, d);
    map key | key in Roots(c, d) :: PatchField(key, d[key])
  }

  /** The classification, stated over the changes themselves. `decodes` is the typed decode
      of an assembled patch. */
  ghost function Classified(c: Document, d: Document, decodes: Document -> bool): Change {
    if DnsListen(c) != DnsListen(d) then Switch
    else if c == d then Noop
    else if Patchable(c, d) then
      var doc := Assembled(c, d);
      if EnableOk(doc) && decodes(doc) then Patch(doc) else Switch
    else if Reloadable(c, d) then Reload
    else Switch
  }

  lemma ReportedChange(changes: seq<DiffEntry>, c: Document, d: Document, path: Path)
    requires Reports(changes, Whole(c), Whole(d), [])
    ensures IsChange(Whole(c), Whole(d), path) <==> DiffEntry(path, ValueAt(Whole(d), path)) in changes
  {
    assert path[0..] == path;
    assert DiffEntry(path, ValueAt(Whole(d), path)) in changes <==>
           IsReported(DiffEntry(path, ValueAt(Whole(d), path)), Whole(c), Whole(d), []);
  }

  lemma ReportedEntry(changes: seq<DiffEntry>, c: Document, d: Document, e: DiffEntry)
    requires Reports(changes, Whole(c), Whole(d), []) && e in changes
    ensures IsChange(Whole(c), Whole(d), e.path) && e.desired == ValueAt(Whole(d), e.path)
  {
    assert e.path[0..] == e.path;
  }

  lemma ReportsPatchable(changes: seq<DiffEntry>, c: Document, d: Document)
    requires Reports(changes, Whole(c), Whole(d), [])
    ensures Patchable(c, d) <==> forall e | e in changes :: e.desired.Some? && PathPatchable(e.path)
    ensures Reloadable(c, d) <==> forall e | e in changes :: PathReloadable(e.path)
    ensures changes == [] <==> c == d
  {
    hide PathPatchable, PathReloadable, Reports;
    forall e | e in changes ensures IsChange(Whole(c), Whole(d), e.path) && e.desired == ValueAt(Whole(d), e.path) {
      ReportedEntry(changes, c, d, e);
    }
    forall path ensures IsChange(Whole(c), Whole(d), path) <==> DiffEntry(path, ValueAt(Whole(d), path)) in changes {
      ReportedChange(changes, c, d, path);
    }
    NoChangeIffEqual(Whole(c), Whole(d));
    if changes != [] {
      assert changes[0] in changes;
    }
  }

  lemma ReportsRoots(changes: seq<DiffEntry>, c: Document, d: Document, roots: set<string>)
    requires Reports(changes, Whole(c), Whole(d), [])
    requires roots == set e | e in changes && e.path != [] :: e.path[0]
    ensures roots == Roots(c, d)
  {
    hide Reports, Roots;
    forall k | k in roots ensures k in Roots(c, d) {
      var e :| e in changes && e.path != [] && e.path[0] == k;
      ReportedEntry(changes, c, d, e);
      ChangeHasRoot(c, d, e.path);
    }
    forall k | k in Roots(c, d) ensures k in roots {
      var path := RootHasChange(c, d, k);
      ReportedChange(changes, c, d, [k] + path);
      assert ([k] + path)[0] == k;
    }
  }

  /** Keeps the allowed fields of a nested mapping; `None` when it is none. */
  method FilterMapping(v: Value, allowed: set<string>) returns (filtered: Option<Value>)
    ensures filtered == if v.Mapping? then Some(Filtered(v, allowed)) else None
  {
    if !v.Mapping? {
      return None;
    }
    var kept: Document := map[];
    var todo := v.fields.Keys;
    while todo != {}
      invariant todo <= v.fields.Keys
      invariant kept == map k | k in v.fields && k !in todo && k in allowed :: v.fields[k]
      decreases todo
    {
      var k :| k in todo;
      if k in allowed {
        kept := kept[k := v.fields[k]];
      }
      todo := todo - {k};
    }
    assert kept == Filtered(v, allowed).fields;
    return Some(Mapping(kept));
  }

  method BuildPatch(d: Document, changes: seq<DiffEntry>, decodes: Document -> bool) returns (change: Change)
    ensures var roots := set e | e in changes && e.path != [] :: e.path[0];
      if !(roots <= d.Keys) then change == Switch || change == Invalid
      else if exists k :: k in roots && !FieldOk(k, d[k]) then change == Invalid
      else exists doc :: Assembles(doc, d, roots) && change ==
             if EnableOk(doc) && decodes(doc) then Patch(doc) else Switch
  {
    hide TunFields, TuicFields, EnableOk;
    var roots := set e | e in changes && e.path != [] :: e.path[0];
    var todo := roots;
    var doc: Document := map[];
    while todo != {}
      invariant todo <= roots && Assembles(doc, d, roots - todo)
      decreases todo
    {
      var root :| root in todo;
      if root !in d {
        return Switch;
      }
      var v := d[root];
      var nested := NestedFields(root);
      if nested.Some? {
        var filtered := FilterMapping(v, nested.value);
        if filtered.None? {
          assert !FieldOk(root, d[root]);
          return Invalid;
        }
        v := filtered.value;
      }
      doc := doc[root := v];
      todo := todo - {root};
    }
    assert roots - todo == roots;
    return if EnableOk(doc) && decodes(doc) then Patch(doc) else Switch;
  }

  lemma AssembledIs(c: Document, d: Document, doc: Document)
    requires Patchable(c, d) && Assembles(doc, d, Roots(c, d))
    ensures doc == Assembled(c, d)
  {
    hide Patchable, PatchField;
  }

  method ClassifyDocuments(c: Document, d: Document, decodes: Document -> bool) returns (change: Change)
    ensures change == Classified(c, d, decodes)
  {
    hide Reports, Patchable, Reloadable, PathPatchable, PathReloadable, Assembles, Roots, EnableOk, Assembled;
    if DnsListen(c) != DnsListen(d) {
      return Switch;
    }
    var changes := Diff(c, d);
    ReportsPatchable(changes, c, d);
    if changes == [] {
      return Noop;
    }
    if forall e | e in changes :: e.desired.Some? && PathPatchable(e.path) {
      ghost var roots := set e | e in changes && e.path != [] :: e.path[0];
      ReportsRoots(changes, c, d, roots);
      CanAssemble(c, d);
      change := BuildPatch(d, changes, decodes);
      forall doc | Assembles(doc, d, roots) ensures doc == Assembled(c, d) {
        AssembledIs(c, d, doc);
      }
      return;
    }
    return if forall e | e in changes :: PathReloadable(e.path) then Reload else Switch;
  }

  // ---------- What the classification promises ----------

  lemma NoopIffEqual(c: Document, d: Document, decodes: Document -> bool)
    ensures Classified(c, d, decodes) == Noop <==> c == d
  {
  }

  lemma PatchRebuilds(c: Document, d: Document, decodes: Document -> bool)
    requires Classified(c, d, decodes).Patch?
    ensures Overlay(c, Classified(c, d, decodes).document) == d && decodes(Classified(c, d, decodes).document)
  {
    hide Patchable, Reloadable, EnableOk, Overlay, PatchField;
    CanAssemble(c, d);
    AssembledAssembles(c, d);
    PatchSound(c, d, Assembled(c, d));
  }

  lemma AssembledAssembles(c: Document, d: Document)
    requires Patchable(c, d)
    ensures Assembles(Assembled(c, d), d, Roots(c, d))
  {
    hide Patchable, PatchField, FieldOk;
    CanAssemble(c, d);
  }

  /** A reload leaves every other field, and where DNS listens, as they were. */
  lemma ReloadConfined(c: Document, d: Document, decodes: Document -> bool, key: string)
    requires Classified(c, d, decodes) == Reload && key !in ReloadFields()
    ensures Get(c, key) == Get(d, key) && DnsListen(c) == DnsListen(d)
  {
    hide ReloadFields, Patchable, EnableOk, Reloadable;
    if key in Roots(c, d) {
      RootReloadable(c, d, key);
    }
  }

  lemma RootReloadable(c: Document, d: Document, key: string)
    requires Reloadable(c, d) && key in Roots(c, d)
    ensures key in ReloadFields()
  {
    hide ReloadFields;
    var path := RootHasChange(c, d, key);
    assert ([key] + path)[0] == key;
  }
}
