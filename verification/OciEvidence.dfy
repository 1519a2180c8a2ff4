/** The documents V4 evidence must match, and what its digests therefore bind. */
module OciEvidence {
  import opened Bytes
  import opened CanonicalJson
  import opened Sorting
  import opened OciGraph
  import OciPreflight

  datatype Layer = Layer(digest: text, size: int, diffId: text)

  /** Sizes are the declared octet counts; hex digests and argv entries are texts. */
  datatype Evidence = Evidence(
    index: bytes, indexDigest: text, indexSize: int,
    manifest: bytes, manifestDigest: text, manifestSize: int,
    config: bytes, configDigest: text, configSize: int,
    layers: seq<Layer>, diffIds: seq<text>, entrypoint: seq<text>, cmd: seq<text>,
    wrapperLayer: text, wrapperOrdinal: nat, inspectedLayer: text, inspectedPath: text, wrapperPath: text)

  function Ascii(s: string): (t: text)
    ensures |t| == |s|
  {
    seq(|s|, i requires 0 <= i < |s| => if s[i] as int < 128 then s[i] as int else 0)
  }

  function Named(digest: text): text { Ascii("sha256:") + digest }

  function Texts(s: seq<text>): Json { List(seq(|s|, i requires 0 <= i < |s| => Str(s[i]))) }

  function NamedTexts(s: seq<text>): Json { List(seq(|s|, i requires 0 <= i < |s| => Str(Named(s[i])))) }

  function Descriptor(digest: text, mediaType: string, size: Json): Json {
    Dict([Field(Ascii("digest"), Str(Named(digest))), Field(Ascii("mediaType"), Str(Ascii(mediaType))),
          Field(Ascii("size"), size)])
  }

  function LayerDoc(l: Layer): Json {
    Descriptor(l.digest, "application/vnd.oci.image.layer.v1.tar+gzip", Int(l.size))
  }

  function Platform(): Json {
    Dict([Field(Ascii("architecture"), Str(Ascii("amd64"))), Field(Ascii("os"), Str(Ascii("linux")))])
  }

  function SelectedDoc(e: Evidence): Json {
    Dict([Field(Ascii("digest"), Str(Named(e.manifestDigest))),
          Field(Ascii("mediaType"), Str(Ascii("application/vnd.oci.image.manifest.v1+json"))),
          Field(Ascii("platform"), Platform()), Field(Ascii("size"), Int(e.manifestSize))])
  }

  function IndexDoc(e: Evidence): Json {
    Dict([Field(Ascii("manifests"), List([SelectedDoc(e)])),
          Field(Ascii("mediaType"), Str(Ascii("application/vnd.oci.image.index.v1+json"))),
          Field(Ascii("schemaVersion"), Int(2))])
  }

  function ManifestDoc(e: Evidence, layers: seq<Json>): Json {
    Dict([Field(Ascii("config"),
                Descriptor(e.configDigest, "application/vnd.oci.image.config.v1+json", Int(e.configSize))),
          Field(Ascii("layers"), List(layers)),
          Field(Ascii("mediaType"), Str(Ascii("application/vnd.oci.image.manifest.v1+json"))),
          Field(Ascii("schemaVersion"), Int(2))])
  }

  function LayerDocs(e: Evidence): seq<Json> {
    seq(|e.layers|, i requires 0 <= i < |e.layers| => LayerDoc(e.layers[i]))
  }

  function ArgumentsDoc(e: Evidence): Json {
    Dict([Field(Ascii("Cmd"), Texts(e.cmd)), Field(Ascii("Entrypoint"), Texts(e.entrypoint))])
  }

  function RootDoc(e: Evidence): Json {
    Dict([Field(Ascii("diff_ids"), NamedTexts(e.diffIds)), Field(Ascii("type"), Str(Ascii("layers")))])
  }

  function ConfigDoc(e: Evidence): Json {
    Dict([Field(Ascii("architecture"), Str(Ascii("amd64"))), Field(Ascii("config"), ArgumentsDoc(e)),
          Field(Ascii("os"), Str(Ascii("linux"))), Field(Ascii("rootfs"), RootDoc(e))])
  }

  // The limits ---------------------------------------------------------------

  const MAX_LAYERS := 32
  const MAX_LAYER_SIZE := 1_073_741_824
  const MAX_ENTRYPOINT_ITEMS := 128
  const MAX_CMD_ITEMS := 64
  const MAX_INDEX := 8192
  const MAX_MANIFEST := 8192
  const MAX_CONFIG := 65536

  predicate HexDigest(t: text) {
    |t| == 64 && forall i :: 0 <= i < 64 ==> 48 <= t[i] <= 57 || 97 <= t[i] <= 102
  }

  predicate Alphanumeric(u: unit) { 48 <= u <= 57 || 65 <= u <= 90 || 97 <= u <= 122 }

  /** Letters, digits and . _ / : = @ + , % - */
  predicate Argument(t: text) {
    && 1 <= |t| <= 256
    && forall i :: 0 <= i < |t| ==> Alphanumeric(t[i]) || t[i] in [46, 95, 47, 58, 61, 64, 43, 44, 37, 45]
  }

  /** Argument vectors; their limits of 32768 and 16384 octets in all follow from these. */
  predicate ArgumentsOk(entrypoint: seq<text>, cmd: seq<text>) {
    && 1 <= |entrypoint| <= MAX_ENTRYPOINT_ITEMS && |cmd| <= MAX_CMD_ITEMS
    && (forall i :: 0 <= i < |entrypoint| ==> Argument(entrypoint[i]))
    && (forall i :: 0 <= i < |cmd| ==> Argument(cmd[i]))
    && entrypoint[0][0] == 47
  }

  predicate LayersOk(layers: seq<Layer>) {
    && 1 <= |layers| <= MAX_LAYERS
    && (forall i :: 0 <= i < |layers| ==>
          1 <= layers[i].size <= MAX_LAYER_SIZE && HexDigest(layers[i].digest) && HexDigest(layers[i].diffId))
    && forall i, j :: 0 <= i < j < |layers| ==>
         layers[i].digest != layers[j].digest && layers[i].diffId != layers[j].diffId
  }

  /** The octets are the canonical text of a dict that equals the expected document. */
  ghost predicate Matches(octets: bytes, doc: Json, exact: bool) {
    exists v: Json :: v.Dict? && Ordered(v) && Text(v) == octets && TreesEqual(v, doc, exact)
  }

  /** What V4 validates; sha is the digest function. */
  ghost predicate Valid(e: Evidence, sha: bytes -> text) {
    && 2 <= |e.index| == e.indexSize <= MAX_INDEX
    && 2 <= |e.manifest| == e.manifestSize <= MAX_MANIFEST
    && 2 <= |e.config| == e.configSize <= MAX_CONFIG
    && OciPreflight.Passes(e.index, MAX_INDEX) && OciPreflight.Passes(e.manifest, MAX_MANIFEST)
    && OciPreflight.Passes(e.config, MAX_CONFIG)
    && HexDigest(e.indexDigest) && HexDigest(e.manifestDigest) && HexDigest(e.configDigest)
    && sha(e.index) == e.indexDigest && sha(e.manifest) == e.manifestDigest && sha(e.config) == e.configDigest
    && Matches(e.index, IndexDoc(e), false)
    && Matches(e.manifest, ManifestDoc(e, LayerDocs(e)), false)
    && Matches(e.config, ConfigDoc(e), false)
    && WellLayered(e)
    && ArgumentsOk(e.entrypoint, e.cmd)
  }

  predicate WellLayered(e: Evidence) {
    var n := |e.layers|;
    && LayersOk(e.layers)
    && e.diffIds == seq(n, i requires 0 <= i < n => e.layers[i].diffId)
    && e.wrapperOrdinal == n - 1 && e.wrapperLayer == e.layers[n - 1].digest
    && e.inspectedLayer == e.wrapperLayer && e.inspectedPath == e.wrapperPath
  }

  // The documents are ordered ------------------------------------------------

  lemma Before(x: string, y: string)
    requires x != "" && y != "" && x[0] < y[0] && y[0] as int < 128
    ensures Leq(Ascii(x), Ascii(y)) && Ascii(x) != Ascii(y)
  {
    assert Ascii(x)[0] == x[0] as int && Ascii(y)[0] == y[0] as int;
  }

  lemma BeforeAtSecond(x: string, y: string)
    requires |x| > 1 && |y| > 1 && x[0] == y[0] && x[1] < y[1] && y[1] as int < 128
    ensures Leq(Ascii(x), Ascii(y)) && Ascii(x) != Ascii(y)
  {
    var s, t := Ascii(x), Ascii(y);
    assert s[1..][0] == x[1] as int && t[1..][0] == y[1] as int && s[0] == t[0];
    assert Leq(s[1..], t[1..]);
  }

  lemma DescriptorOrdered(digest: text, mediaType: string, size: Json)
    requires Ordered(size)
    ensures Ordered(Descriptor(digest, mediaType, size))
  {
    Before("digest", "mediaType");
    Before("digest", "size");
    Before("mediaType", "size");
  }

  lemma SelectedOrdered(e: Evidence)
    ensures Ordered(SelectedDoc(e))
  {
    Before("architecture", "os");
    assert Ordered(Platform());
    Before("digest", "mediaType");
    Before("digest", "platform");
    Before("digest", "size");
    Before("mediaType", "platform");
    Before("mediaType", "size");
    Before("platform", "size");
  }

  lemma IndexOrdered(e: Evidence)
    ensures Ordered(IndexDoc(e))
  {
    SelectedOrdered(e);
    hide SelectedDoc;
    BeforeAtSecond("manifests", "mediaType");
    Before("manifests", "schemaVersion");
    Before("mediaType", "schemaVersion");
  }

  lemma ManifestOrdered(e: Evidence, layers: seq<Json>)
    requires forall i :: 0 <= i < |layers| ==> Ordered(layers[i])
    ensures Ordered(ManifestDoc(e, layers))
  {
    DescriptorOrdered(e.configDigest, "application/vnd.oci.image.config.v1+json", Int(e.configSize));
    Before("config", "layers");
    Before("config", "mediaType");
    Before("config", "schemaVersion");
    Before("layers", "mediaType");
    Before("layers", "schemaVersion");
    Before("mediaType", "schemaVersion");
  }

  lemma ConfigOrdered(e: Evidence)
    ensures Ordered(ConfigDoc(e))
  {
    Before("Cmd", "Entrypoint");
    assert Ordered(ConfigDoc(e).fields[1].value);
    Before("diff_ids", "type");
    assert Ordered(ConfigDoc(e).fields[3].value);
    Before("architecture", "config");
    Before("architecture", "os");
    Before("architecture", "rootfs");
    Before("config", "os");
    Before("config", "rootfs");
    Before("os", "rootfs");
  }

  // Taking documents apart ---------------------------------------------------

  lemma Place(a: Json, b: Json, exact: bool, i: nat)
    requires a.Dict? && b.Dict? && Ordered(a) && Ordered(b) && TreesEqual(a, b, exact) && i < |a.fields|
    ensures |a.fields| == |b.fields| && TreesEqual(a.fields[i].value, b.fields[i].value, exact)
  {
    KeysAgree(a.fields, b.fields, i);
  }

  /** Octets that match two documents make the documents equal trees. */
  lemma OneOctetsTwoDocs(octets: bytes, a: Json, b: Json)
    requires Matches(octets, a, false) && Matches(octets, b, false) && Ordered(a) && Ordered(b)
    ensures TreesEqual(a, b, false)
  {
    var v: Json :| v.Dict? && Ordered(v) && Text(v) == octets && TreesEqual(v, a, false);
    var w: Json :| w.Dict? && Ordered(w) && Text(w) == octets && TreesEqual(w, b, false);
    PrinterInjective(v, w);
    EqualToOne(v, a, b, false);
  }

  lemma NamedInjective(a: text, b: text)
    requires Named(a) == Named(b)
    ensures a == b
  {
    assert Named(a)[7..] == a && Named(b)[7..] == b;
  }

  lemma DescriptorBinds(a: text, b: text, mediaType: string, m: int, n: int)
    requires TreesEqual(Descriptor(a, mediaType, Int(m)), Descriptor(b, mediaType, Int(n)), false)
    ensures a == b && m == n
  {
    DescriptorOrdered(a, mediaType, Int(m));
    DescriptorOrdered(b, mediaType, Int(n));
    Place(Descriptor(a, mediaType, Int(m)), Descriptor(b, mediaType, Int(n)), false, 0);
    Place(Descriptor(a, mediaType, Int(m)), Descriptor(b, mediaType, Int(n)), false, 2);
    NamedInjective(a, b);
  }

  lemma TextsBind(a: seq<text>, b: seq<text>)
    requires TreesEqual(Texts(a), Texts(b), false)
    ensures a == b
  {
    forall i | 0 <= i < |a| ensures |b| == |a| && a[i] == b[i] {
      assert TreesEqual(Texts(a).items[i], Texts(b).items[i], false);
    }
  }

  lemma NamedTextsBind(a: seq<text>, b: seq<text>)
    requires TreesEqual(NamedTexts(a), NamedTexts(b), false)
    ensures a == b
  {
    forall i | 0 <= i < |a| ensures |b| == |a| && a[i] == b[i] {
      assert TreesEqual(NamedTexts(a).items[i], NamedTexts(b).items[i], false);
      NamedInjective(a[i], b[i]);
    }
  }

  // What a digest binds ------------------------------------------------------

  lemma ManifestDocBinds(e: Evidence, f: Evidence)
    requires TreesEqual(ManifestDoc(e, LayerDocs(e)), ManifestDoc(f, LayerDocs(f)), false)
    ensures e.configDigest == f.configDigest && e.configSize == f.configSize && |e.layers| == |f.layers|
    ensures forall i :: 0 <= i < |e.layers| ==>
              e.layers[i].digest == f.layers[i].digest && e.layers[i].size == f.layers[i].size
  {
    var a, b := ManifestDoc(e, LayerDocs(e)), ManifestDoc(f, LayerDocs(f));
    LayersOrdered(e);
    LayersOrdered(f);
    ManifestOrdered(e, LayerDocs(e));
    ManifestOrdered(f, LayerDocs(f));
    Place(a, b, false, 0);
    Place(a, b, false, 1);
    hide Descriptor;
    DescriptorBinds(e.configDigest, f.configDigest, "application/vnd.oci.image.config.v1+json",
      e.configSize, f.configSize);
    forall i | 0 <= i < |e.layers|
      ensures e.layers[i].digest == f.layers[i].digest && e.layers[i].size == f.layers[i].size
    {
      assert TreesEqual(LayerDocs(e)[i], LayerDocs(f)[i], false);
      DescriptorBinds(e.layers[i].digest, f.layers[i].digest, "application/vnd.oci.image.layer.v1.tar+gzip",
        e.layers[i].size, f.layers[i].size);
    }
  }

  lemma LayersOrdered(e: Evidence)
    ensures forall i :: 0 <= i < |e.layers| ==> Ordered(LayerDocs(e)[i])
  {
    forall i | 0 <= i < |e.layers| ensures Ordered(LayerDocs(e)[i]) {
      DescriptorOrdered(e.layers[i].digest, "application/vnd.oci.image.layer.v1.tar+gzip", Int(e.layers[i].size));
    }
  }

  lemma ConfigDocBinds(e: Evidence, f: Evidence)
    requires TreesEqual(ConfigDoc(e), ConfigDoc(f), false)
    ensures e.diffIds == f.diffIds && e.entrypoint == f.entrypoint && e.cmd == f.cmd
  {
    ConfigOrdered(e);
    ConfigOrdered(f);
    Place(ConfigDoc(e), ConfigDoc(f), false, 1);
    Place(ConfigDoc(e), ConfigDoc(f), false, 3);
    var c, d := ConfigDoc(e).fields[1].value, ConfigDoc(f).fields[1].value;
    Place(c, d, false, 0);
    Place(c, d, false, 1);
    Place(ConfigDoc(e).fields[3].value, ConfigDoc(f).fields[3].value, false, 0);
    hide Texts, NamedTexts;
    TextsBind(e.cmd, f.cmd);
    TextsBind(e.entrypoint, f.entrypoint);
    NamedTextsBind(e.diffIds, f.diffIds);
  }

  /** The digest function does not collide on these two octet strings. */
  ghost predicate Distinguishes(sha: bytes -> text, x: bytes, y: bytes) { sha(x) == sha(y) ==> x == y }

  /**
   Unless digests collide, the manifest digest fixes all that will run: ordered layers, config digest,
   diff ids, entrypoint, command and the wrapper's layer.
   */
  lemma ManifestDigestBinds(e: Evidence, f: Evidence, sha: bytes -> text)
    requires Valid(e, sha) && Valid(f, sha) && e.manifestDigest == f.manifestDigest
    requires Distinguishes(sha, e.manifest, f.manifest) && Distinguishes(sha, e.config, f.config)
    ensures e.manifest == f.manifest && e.config == f.config && e.configDigest == f.configDigest
    ensures e.layers == f.layers && e.diffIds == f.diffIds && e.entrypoint == f.entrypoint && e.cmd == f.cmd
    ensures e.wrapperLayer == f.wrapperLayer && e.wrapperOrdinal == f.wrapperOrdinal
  {
    hide Matches, ManifestDoc, ConfigDoc, IndexDoc, LayerDocs;
    ManifestOctetsBind(e, f);
    ConfigOctetsBind(e, f);
    forall i | 0 <= i < |e.layers| ensures e.layers[i] == f.layers[i] {
      assert e.diffIds[i] == f.diffIds[i];
    }
  }

  lemma ManifestOctetsBind(e: Evidence, f: Evidence)
    requires e.manifest == f.manifest
    requires Matches(e.manifest, ManifestDoc(e, LayerDocs(e)), false)
    requires Matches(f.manifest, ManifestDoc(f, LayerDocs(f)), false)
    ensures e.configDigest == f.configDigest && e.configSize == f.configSize && |e.layers| == |f.layers|
    ensures forall i :: 0 <= i < |e.layers| ==>
              e.layers[i].digest == f.layers[i].digest && e.layers[i].size == f.layers[i].size
  {
    LayersOrdered(e);
    LayersOrdered(f);
    ManifestOrdered(e, LayerDocs(e));
    ManifestOrdered(f, LayerDocs(f));
    hide Matches, ManifestDoc, LayerDocs, Ordered, TreesEqual;
    OneOctetsTwoDocs(e.manifest, ManifestDoc(e, LayerDocs(e)), ManifestDoc(f, LayerDocs(f)));
    ManifestDocBinds(e, f);
  }

  lemma ConfigOctetsBind(e: Evidence, f: Evidence)
    requires e.config == f.config
    requires Matches(e.config, ConfigDoc(e), false) && Matches(f.config, ConfigDoc(f), false)
    ensures e.diffIds == f.diffIds && e.entrypoint == f.entrypoint && e.cmd == f.cmd
  {
    hide Matches, ConfigDoc, Ordered, TreesEqual;
    ConfigOrdered(e);
    ConfigOrdered(f);
    OneOctetsTwoDocs(e.config, ConfigDoc(e), ConfigDoc(f));
    ConfigDocBinds(e, f);
  }

  /** And the index digest fixes the manifest digest. */
  lemma IndexDigestBinds(e: Evidence, f: Evidence, sha: bytes -> text)
    requires Valid(e, sha) && Valid(f, sha) && e.indexDigest == f.indexDigest
    requires Distinguishes(sha, e.index, f.index)
    ensures e.manifestDigest == f.manifestDigest && e.manifestSize == f.manifestSize
  {
    hide Matches, ManifestDoc, ConfigDoc, IndexDoc, LayerDocs, Ordered, TreesEqual;
    IndexOrdered(e);
    IndexOrdered(f);
    OneOctetsTwoDocs(e.index, IndexDoc(e), IndexDoc(f));
    IndexDocBinds(e, f);
  }

  lemma IndexDocBinds(e: Evidence, f: Evidence)
    requires TreesEqual(IndexDoc(e), IndexDoc(f), false)
    ensures e.manifestDigest == f.manifestDigest && e.manifestSize == f.manifestSize
  {
    IndexOrdered(e);
    IndexOrdered(f);
    Place(IndexDoc(e), IndexDoc(f), false, 0);
    var x, y := IndexDoc(e).fields[0].value, IndexDoc(f).fields[0].value;
    assert TreesEqual(x.items[0], y.items[0], false) && Ordered(x.items[0]) && Ordered(y.items[0]);
    assert x.items[0] == SelectedDoc(e) && y.items[0] == SelectedDoc(f);
    SelectedBinds(e, f);
  }

  lemma SelectedBinds(e: Evidence, f: Evidence)
    requires Ordered(SelectedDoc(e)) && Ordered(SelectedDoc(f)) && TreesEqual(SelectedDoc(e), SelectedDoc(f), false)
    ensures e.manifestDigest == f.manifestDigest && e.manifestSize == f.manifestSize
  {
    Place(SelectedDoc(e), SelectedDoc(f), false, 0);
    Place(SelectedDoc(e), SelectedDoc(f), false, 3);
    NamedInjective(e.manifestDigest, f.manifestDigest);
  }

  // The converse, and where it fails -----------------------------------------

  /** The octets that evidence with these declared fields may carry as its manifest. */
  ghost predicate ManifestOctets(e: Evidence, exact: bool, p: bytes) {
    Matches(p, ManifestDoc(e, LayerDocs(e)), exact)
  }

  ghost predicate FixesManifest(e: Evidence, exact: bool) {
    forall p, q :: ManifestOctets(e, exact, p) && ManifestOctets(e, exact, q) ==> p == q
  }

  lemma FromPlaces(a: Json, b: Json, exact: bool)
    requires a.Dict? && b.Dict? && |a.fields| == |b.fields| && Ascending(b.fields)
    requires forall i :: 0 <= i < |a.fields| ==>
               a.fields[i].key == b.fields[i].key && TreesEqual(a.fields[i].value, b.fields[i].value, exact)
    ensures TreesEqual(a, b, exact)
  {
    forall i | 0 <= i < |a.fields| ensures Find(b.fields, a.fields[i].key) == i { }
  }

  /** With the layer k written as true octets big, which Python takes for one octet. */
  function Aliased(e: Evidence, k: nat): seq<Json>
    requires k < |e.layers|
  {
    LayerDocs(e)[k := Descriptor(e.layers[k].digest, "application/vnd.oci.image.layer.v1.tar+gzip", Bool(true))]
  }

  lemma AliasMatches(e: Evidence, k: nat)
    requires k < |e.layers| && e.layers[k].size == 1
    ensures ManifestOctets(e, false, Text(ManifestDoc(e, Aliased(e, k))))
  {
    LayersOrdered(e);
    ManifestOrdered(e, LayerDocs(e));
    var a := Aliased(e, k);
    DescriptorOrdered(e.layers[k].digest, "application/vnd.oci.image.layer.v1.tar+gzip", Bool(true));
    ManifestOrdered(e, a);
    forall i | 0 <= i < |a| ensures TreesEqual(a[i], LayerDocs(e)[i], false) {
      if i == k {
        FromPlaces(a[k], LayerDocs(e)[k], false);
      } else {
        TreesEqualReflexive(a[i], false);
      }
    }
    var v, doc := ManifestDoc(e, a), ManifestDoc(e, LayerDocs(e));
    TreesEqualReflexive(doc.fields[0].value, false);
    FromPlaces(v, doc, false);
  }

  lemma OrdinaryMatches(e: Evidence, exact: bool)
    ensures ManifestOctets(e, exact, Text(ManifestDoc(e, LayerDocs(e))))
  {
    LayersOrdered(e);
    ManifestOrdered(e, LayerDocs(e));
    TreesEqualReflexive(ManifestDoc(e, LayerDocs(e)), exact);
  }

  /** Compared exactly, the declared fields fix the manifest octets, so also the manifest digest. */
  lemma ExactFieldsFixManifest(e: Evidence)
    ensures FixesManifest(e, true)
  {
    LayersOrdered(e);
    ManifestOrdered(e, LayerDocs(e));
    var doc := ManifestDoc(e, LayerDocs(e));
    forall p | ManifestOctets(e, true, p) ensures p == Text(doc) {
      var v: Json :| v.Dict? && Ordered(v) && Text(v) == p && TreesEqual(v, doc, true);
      ExactComparisonIsIdentity(v, doc);
    }
  }

  /** Compared as V4 compares, they do exactly when no layer is declared one octet big. */
  lemma LooseFieldsFixManifest(e: Evidence)
    requires e.configSize >= 2 && forall l :: l in e.layers ==> l.size >= 1
    ensures FixesManifest(e, false) <==> forall i :: 0 <= i < |e.layers| ==> e.layers[i].size != 1
  {
    LayersOrdered(e);
    ManifestOrdered(e, LayerDocs(e));
    var doc := ManifestDoc(e, LayerDocs(e));
    if forall i :: 0 <= i < |e.layers| ==> e.layers[i].size != 1 {
      ManifestHasNoAlias(e);
      forall p | ManifestOctets(e, false, p) ensures p == Text(doc) {
        var v: Json :| v.Dict? && Ordered(v) && Text(v) == p && TreesEqual(v, doc, false);
        EqualTreesAreOne(v, doc, false);
      }
    } else {
      var k: nat :| k < |e.layers| && e.layers[k].size == 1;
      OrdinaryMatches(e, false);
      AliasMatches(e, k);
      AliasDiffers(e, k);
    }
  }

  lemma AliasDiffers(e: Evidence, k: nat)
    requires k < |e.layers|
    ensures Text(ManifestDoc(e, Aliased(e, k))) != Text(ManifestDoc(e, LayerDocs(e)))
  {
    var a, b := ManifestDoc(e, Aliased(e, k)), ManifestDoc(e, LayerDocs(e));
    assert a.fields[1].value.items[k].fields[2].value != b.fields[1].value.items[k].fields[2].value;
    PrinterInjective(a, b);
  }

  lemma ManifestHasNoAlias(e: Evidence)
    requires e.configSize >= 2 && forall i :: 0 <= i < |e.layers| ==> e.layers[i].size >= 1 && e.layers[i].size != 1
    ensures NoAlias(ManifestDoc(e, LayerDocs(e)))
  {
    forall i | 0 <= i < |e.layers| ensures NoAlias(LayerDocs(e)[i]) { }
  }
}
