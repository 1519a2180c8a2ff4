/**
 Which images have V4 evidence. Every image within the validator's field limits does, because canonical
 documents of such images are never too long; one with a layer of one octet has two.
 */
module OciImages {
  import opened Bytes
  import opened CanonicalJson
  import opened OciGraph
  import opened OciEvidence
  import opened JsonSize
  import OciPreflight

  // The documents keep within the limits --------------------------------------

  /** Printable ASCII that needs no escape. */
  predicate Printable(s: string) {
    forall i :: 0 <= i < |s| ==> ' ' <= s[i] <= '~' && s[i] != '"' && s[i] != '\\'
  }

  lemma DescriptorKeys()
    ensures Printable("digest") && Printable("mediaType") && Printable("size") && Printable("platform")
  {
  }

  lemma ConfigKeys()
    ensures Printable("architecture") && Printable("os") && Printable("config") && Printable("rootfs")
  {
  }

  lemma InnerKeys()
    ensures Printable("Cmd") && Printable("Entrypoint") && Printable("diff_ids") && Printable("type")
  {
  }

  lemma OuterKeys()
    ensures Printable("layers") && Printable("manifests") && Printable("schemaVersion")
    ensures Printable("amd64") && Printable("linux")
  {
  }

  lemma LayerType()
    ensures Printable("application/vnd.oci.image.layer.v1.tar+gzip")
  {
  }

  lemma ConfigType()
    ensures Printable("application/vnd.oci.image.config.v1+json")
  {
  }

  lemma ManifestType()
    ensures Printable("application/vnd.oci.image.manifest.v1+json")
  {
  }

  lemma IndexType()
    ensures Printable("application/vnd.oci.image.index.v1+json")
  {
  }

  lemma LiteralsPrintable()
    ensures Printable("digest") && Printable("mediaType") && Printable("size") && Printable("platform")
    ensures Printable("architecture") && Printable("os") && Printable("config") && Printable("rootfs")
    ensures Printable("Cmd") && Printable("Entrypoint") && Printable("diff_ids") && Printable("type")
    ensures Printable("layers") && Printable("manifests") && Printable("schemaVersion")
    ensures Printable("amd64") && Printable("linux")
    ensures Printable("application/vnd.oci.image.layer.v1.tar+gzip")
    ensures Printable("application/vnd.oci.image.config.v1+json")
    ensures Printable("application/vnd.oci.image.manifest.v1+json")
    ensures Printable("application/vnd.oci.image.index.v1+json")
  {
    hide *;
    DescriptorKeys();
    ConfigKeys();
    InnerKeys();
    OuterKeys();
    LayerType();
    ConfigType();
    ManifestType();
    IndexType();
  }

  lemma LiteralSize(s: string)
    requires Printable(s)
    ensures |Body(Ascii(s))| == |s| && Measure(Str(Ascii(s))) == Size(|s| + 2, 1, 0)
  {
    PlainBody(Ascii(s));
  }

  lemma KeySize(s: string, v: Json)
    requires Printable(s)
    ensures var m := Measure(v); FieldMeasure(Field(Ascii(s), v)) == Size(|s| + 3 + m.octets, 1 + m.nodes, m.depth)
  {
    LiteralSize(s);
  }

  lemma DigestSize(digest: text)
    requires HexDigest(digest)
    ensures Measure(Str(Named(digest))) == Size(73, 1, 0)
  {
    var prefix := Ascii("sha256:");
    assert PlainText(prefix);
    assert PlainText(Named(digest)) by {
      forall i | 0 <= i < |Named(digest)| ensures PlainUnit(Named(digest)[i]) {
        if i >= 7 {
          assert Named(digest)[i] == digest[i - 7];
        }
      }
    }
    PlainBody(Named(digest));
  }

  lemma NumberSize(n: int)
    requires 0 <= n <= MAX_LAYER_SIZE
    ensures Within(Measure(Int(n)), Size(10, 10, 0))
  {
    assert PowerOfTen(10) == 10_000_000_000;
    FewDigits(n, 10);
  }

  const DescriptorLimit := Size(162, 16, 1)

  lemma DescriptorSize(digest: text, mediaType: string, size: Json)
    requires HexDigest(digest) && Printable(mediaType) && |mediaType| <= 44
    requires Within(Measure(size), Size(10, 10, 0))
    ensures Within(Measure(Descriptor(digest, mediaType, size)), DescriptorLimit)
  {
    DigestSize(digest);
    LiteralsPrintable();
    hide Measure, ItemsMeasure, FieldsMeasure, FieldMeasure, Body, HexDigest, Ascii, Named, Text, Printable;
    LiteralSize(mediaType);
    KeySize("digest", Str(Named(digest)));
    KeySize("mediaType", Str(Ascii(mediaType)));
    KeySize("size", size);
    var d := Descriptor(digest, mediaType, size);
    FewFieldsMeasure(d.fields);
    DictMeasure(d);
  }

  lemma ArgumentSizes(s: seq<text>, n: nat)
    requires |s| <= n && forall i :: 0 <= i < |s| ==> Argument(s[i])
    ensures Within(Measure(Texts(s)), Size(2 + n * 259, 1 + n, 1))
  {
    forall i | 0 <= i < |s| ensures Within(Measure(Texts(s).items[i]), Size(258, 1, 0)) {
      PlainBody(s[i]);
    }
    hide Measure;
    ListWithin(Texts(s).items, Size(258, 1, 0), n);
  }

  lemma DigestSizes(s: seq<text>, n: nat)
    requires |s| <= n && forall i :: 0 <= i < |s| ==> HexDigest(s[i])
    ensures Within(Measure(NamedTexts(s)), Size(2 + n * 74, 1 + n, 1))
  {
    hide Measure;
    forall i | 0 <= i < |s| ensures Within(Measure(NamedTexts(s).items[i]), Size(73, 1, 0)) {
      DigestSize(s[i]);
    }
    ListWithin(NamedTexts(s).items, Size(73, 1, 0), n);
  }

  lemma ArgumentsSize(d: Evidence)
    requires ArgumentsOk(d.entrypoint, d.cmd)
    ensures Within(Measure(ArgumentsDoc(d)), Size(50_000, 200, 2))
  {
    ArgumentSizes(d.entrypoint, MAX_ENTRYPOINT_ITEMS);
    ArgumentSizes(d.cmd, MAX_CMD_ITEMS);
    LiteralsPrintable();
    hide Measure, ItemsMeasure, FieldsMeasure, FieldMeasure, Body, HexDigest, Ascii, Named, Text, Printable,
      Texts, NamedTexts, ArgumentsOk;
    var c := ArgumentsDoc(d);
    KeySize("Cmd", Texts(d.cmd));
    KeySize("Entrypoint", Texts(d.entrypoint));
    FewFieldsMeasure(c.fields);
    DictMeasure(c);
  }

  lemma RootSize(d: Evidence)
    requires WellLayered(d)
    ensures Within(Measure(RootDoc(d)), Size(2500, 40, 2))
  {
    DigestSizes(d.diffIds, MAX_LAYERS);
    LiteralsPrintable();
    hide Measure, ItemsMeasure, FieldsMeasure, FieldMeasure, Body, HexDigest, Ascii, Named, Text, Printable,
      Texts, NamedTexts, WellLayered;
    var r := RootDoc(d);
    KeySize("diff_ids", NamedTexts(d.diffIds));
    KeySize("type", Str(Ascii("layers")));
    LiteralSize("layers");
    FewFieldsMeasure(r.fields);
    DictMeasure(r);
  }

  lemma ConfigFits(d: Evidence)
    requires WellLayered(d) && ArgumentsOk(d.entrypoint, d.cmd)
    ensures |Text(ConfigDoc(d))| <= MAX_CONFIG && OciPreflight.Passes(Text(ConfigDoc(d)), MAX_CONFIG)
  {
    ArgumentsSize(d);
    RootSize(d);
    LiteralsPrintable();
    hide Measure, ItemsMeasure, FieldsMeasure, FieldMeasure, Body, HexDigest, Ascii, Named, Text, Printable,
      Texts, NamedTexts, WellLayered, ArgumentsOk, OciPreflight.Passes;
    var v := ConfigDoc(d);
    KeySize("architecture", Str(Ascii("amd64")));
    LiteralSize("amd64");
    KeySize("config", ArgumentsDoc(d));
    KeySize("os", Str(Ascii("linux")));
    LiteralSize("linux");
    KeySize("rootfs", RootDoc(d));
    FewFieldsMeasure(v.fields);
    DictMeasure(v);
    TextLength(v);
    OciPreflight.PassesIffWithin(v, MAX_CONFIG);
  }

  lemma LayerSize(digest: text, size: Json)
    requires HexDigest(digest) && Within(Measure(size), Size(10, 10, 0))
    ensures Within(Measure(Descriptor(digest, "application/vnd.oci.image.layer.v1.tar+gzip", size)), DescriptorLimit)
  {
    LayerType();
    hide Measure, HexDigest, Printable;
    DescriptorSize(digest, "application/vnd.oci.image.layer.v1.tar+gzip", size);
  }

  lemma ConfigDescriptorSize(d: Evidence)
    requires HexDigest(d.configDigest) && 0 <= d.configSize <= MAX_CONFIG
    ensures var c := Descriptor(d.configDigest, "application/vnd.oci.image.config.v1+json", Int(d.configSize));
            Within(Measure(c), DescriptorLimit)
  {
    NumberSize(d.configSize);
    ConfigType();
    hide Measure, HexDigest, Printable;
    DescriptorSize(d.configDigest, "application/vnd.oci.image.config.v1+json", Int(d.configSize));
  }

  lemma ManifestFits(d: Evidence, layers: seq<Json>)
    requires HexDigest(d.configDigest) && 0 <= d.configSize <= MAX_CONFIG
    requires |layers| <= MAX_LAYERS && forall i :: 0 <= i < |layers| ==> Within(Measure(layers[i]), DescriptorLimit)
    ensures var octets := Text(ManifestDoc(d, layers));
            |octets| <= MAX_MANIFEST && OciPreflight.Passes(octets, MAX_MANIFEST)
  {
    NumberSize(2);
    ListWithin(layers, DescriptorLimit, MAX_LAYERS);
    ConfigDescriptorSize(d);
    LiteralsPrintable();
    hide Measure, ItemsMeasure, FieldsMeasure, FieldMeasure, Body, HexDigest, Ascii, Named, Text, Printable,
      Descriptor, OciPreflight.Passes;
    var v := ManifestDoc(d, layers);
    KeySize("config", v.fields[0].value);
    KeySize("layers", List(layers));
    KeySize("mediaType", v.fields[2].value);
    LiteralSize("application/vnd.oci.image.manifest.v1+json");
    KeySize("schemaVersion", Int(2));
    FewFieldsMeasure(v.fields);
    DictMeasure(v);
    TextLength(v);
    OciPreflight.PassesIffWithin(v, MAX_MANIFEST);
  }

  lemma LayersFit(d: Evidence)
    requires LayersOk(d.layers)
    ensures forall i :: 0 <= i < |d.layers| ==> Within(Measure(LayerDocs(d)[i]), DescriptorLimit)
  {
    hide Measure, HexDigest;
    forall i | 0 <= i < |d.layers| ensures Within(Measure(LayerDocs(d)[i]), DescriptorLimit) {
      NumberSize(d.layers[i].size);
      LayerSize(d.layers[i].digest, Int(d.layers[i].size));
    }
  }

  lemma PlatformSize()
    ensures Within(Measure(Platform()), Size(60, 5, 1))
  {
    LiteralsPrintable();
    hide Measure, ItemsMeasure, FieldsMeasure, FieldMeasure, Body, HexDigest, Ascii, Named, Text, Printable;
    var p := Platform();
    KeySize("architecture", Str(Ascii("amd64")));
    LiteralSize("amd64");
    KeySize("os", Str(Ascii("linux")));
    LiteralSize("linux");
    FewFieldsMeasure(p.fields);
    DictMeasure(p);
  }

  lemma SelectedSize(d: Evidence)
    requires HexDigest(d.manifestDigest) && 0 <= d.manifestSize <= MAX_MANIFEST
    ensures Within(Measure(SelectedDoc(d)), Size(300, 30, 2))
  {
    NumberSize(d.manifestSize);
    DigestSize(d.manifestDigest);
    PlatformSize();
    LiteralsPrintable();
    hide Measure, ItemsMeasure, FieldsMeasure, FieldMeasure, Body, HexDigest, Ascii, Named, Text, Printable,
      Platform;
    var m := SelectedDoc(d);
    KeySize("digest", Str(Named(d.manifestDigest)));
    KeySize("mediaType", m.fields[1].value);
    LiteralSize("application/vnd.oci.image.manifest.v1+json");
    KeySize("platform", Platform());
    KeySize("size", Int(d.manifestSize));
    FewFieldsMeasure(m.fields);
    DictMeasure(m);
  }

  lemma IndexFits(d: Evidence)
    requires HexDigest(d.manifestDigest) && 0 <= d.manifestSize <= MAX_MANIFEST
    ensures |Text(IndexDoc(d))| <= MAX_INDEX && OciPreflight.Passes(Text(IndexDoc(d)), MAX_INDEX)
  {
    NumberSize(2);
    SelectedSize(d);
    LiteralsPrintable();
    hide Measure, ItemsMeasure, FieldsMeasure, FieldMeasure, Body, HexDigest, Ascii, Named, Text, Printable,
      SelectedDoc, OciPreflight.Passes;
    var m, v := SelectedDoc(d), IndexDoc(d);
    ListWithin([m], Measure(m), 1);
    KeySize("manifests", List([m]));
    KeySize("mediaType", v.fields[1].value);
    LiteralSize("application/vnd.oci.image.index.v1+json");
    KeySize("schemaVersion", Int(2));
    FewFieldsMeasure(v.fields);
    DictMeasure(v);
    TextLength(v);
    OciPreflight.PassesIffWithin(v, MAX_INDEX);
  }

  lemma DictTextLength(v: Json)
    requires v.Dict?
    ensures |Text(v)| >= 2
  {
    if v.fields != [] {
      assert Text(v) == [0x7B] + FieldText(v.fields[0]) + FieldsText(v.fields[1..]);
    }
  }

  lemma TextMatches(doc: Json)
    requires doc.Dict? && Ordered(doc)
    ensures Matches(Text(doc), doc, false) && |Text(doc)| >= 2
  {
    TreesEqualReflexive(doc, false);
    DictTextLength(doc);
  }

  // Every image has evidence --------------------------------------------------

  /** An image that the validator's field limits admit. */
  predicate ImageOk(layers: seq<Layer>, entrypoint: seq<text>, cmd: seq<text>) {
    LayersOk(layers) && ArgumentsOk(entrypoint, cmd)
  }

  ghost predicate HexDigests(sha: bytes -> text) {
    forall octets :: HexDigest(sha(octets))
  }

  function Image(layers: seq<Layer>, entrypoint: seq<text>, cmd: seq<text>, path: text): (e: Evidence)
    requires layers != []
    ensures e.layers == layers && e.entrypoint == entrypoint && e.cmd == cmd
    ensures LayersOk(layers) ==> WellLayered(e)
  {
    var n := |layers|;
    var top := layers[n - 1].digest;
    Evidence([], [], 0, [], [], 0, [], [], 0, layers, seq(n, i requires 0 <= i < n => layers[i].diffId),
      entrypoint, cmd, top, n - 1, top, path, path)
  }

  /**
   Every image within the limits has valid evidence, its documents printed canonically, config first and
   index last: no such image has a document that is too long.
   */
  lemma EvidenceExists(layers: seq<Layer>, entrypoint: seq<text>, cmd: seq<text>, path: text, sha: bytes -> text)
    returns (e: Evidence)
    requires ImageOk(layers, entrypoint, cmd) && HexDigests(sha)
    ensures Valid(e, sha) && e.layers == layers && e.entrypoint == entrypoint && e.cmd == cmd
  {
    ImageIsOk(layers, entrypoint, cmd, path);
    hide *;
    var d := Configured(Image(layers, entrypoint, cmd, path), sha);
    OrdinaryFits(d, sha);
    e := Assembled(d, Ordinary(d), sha);
  }

  lemma ImageIsOk(layers: seq<Layer>, entrypoint: seq<text>, cmd: seq<text>, path: text)
    requires ImageOk(layers, entrypoint, cmd)
    ensures layers != [] && ArgumentsOk(entrypoint, cmd)
    ensures WellLayered(Image(layers, entrypoint, cmd, path))
  {
  }

  /** Digests and sizes of the config are in place. */
  ghost predicate ConfigOk(d: Evidence, sha: bytes -> text) {
    && WellLayered(d) && ArgumentsOk(d.entrypoint, d.cmd) && HexDigests(sha)
    && Matches(d.config, ConfigDoc(d), false)
    && 2 <= |d.config| == d.configSize <= MAX_CONFIG && OciPreflight.Passes(d.config, MAX_CONFIG)
    && d.configDigest == sha(d.config)
  }

  /** What may stand as its manifest. */
  ghost predicate ManifestFor(d: Evidence, octets: bytes) {
    && ManifestOctets(d, false, octets)
    && 2 <= |octets| <= MAX_MANIFEST && OciPreflight.Passes(octets, MAX_MANIFEST)
  }

  function Ordinary(d: Evidence): bytes { Text(ManifestDoc(d, LayerDocs(d))) }

  lemma OrdinaryFits(d: Evidence, sha: bytes -> text)
    requires ConfigOk(d, sha)
    ensures ManifestFor(d, Ordinary(d))
  {
    hide Text, Matches, ManifestDoc, ConfigDoc, Measure, HexDigest, OciPreflight.Passes;
    OrdinaryMatches(d, false);
    ManifestTextLength(d, LayerDocs(d));
    LayersFit(d);
    ManifestFits(d, LayerDocs(d));
  }

  lemma ManifestTextLength(d: Evidence, layers: seq<Json>)
    ensures |Text(ManifestDoc(d, layers))| >= 2
  {
    DictTextLength(ManifestDoc(d, layers));
  }

  function OneAsTrue(d: Evidence, k: nat): bytes
    requires k < |d.layers|
  {
    Text(ManifestDoc(d, Aliased(d, k)))
  }

  lemma OneAsTrueFits(d: Evidence, sha: bytes -> text, k: nat)
    requires ConfigOk(d, sha) && k < |d.layers| && d.layers[k].size == 1
    ensures ManifestFor(d, OneAsTrue(d, k)) && OneAsTrue(d, k) != Ordinary(d)
  {
    hide Text, Matches, ManifestDoc, ConfigDoc, HexDigest;
    AliasMatches(d, k);
    AliasDiffers(d, k);
    ManifestTextLength(d, Aliased(d, k));
    LayersFit(d);
    LayerSize(d.layers[k].digest, Bool(true));
    hide Measure, OciPreflight.Passes;
    ManifestFits(d, Aliased(d, k));
  }

  /** Evidence around given manifest octets: index and digests follow. */
  lemma Assembled(d: Evidence, octets: bytes, sha: bytes -> text) returns (e: Evidence)
    requires ConfigOk(d, sha) && ManifestFor(d, octets)
    ensures Valid(e, sha) && e.manifest == octets && e.layers == d.layers && e.config == d.config
    ensures e.entrypoint == d.entrypoint && e.cmd == d.cmd
  {
    hide Text, Matches, ManifestDoc, ConfigDoc, IndexDoc, LayerDocs, LayersOk, ArgumentsOk, HexDigest,
      OciPreflight.Passes;
    e := Manifested(d, octets, sha);
    e := Indexed(e, sha);
  }

  /**
   And an image with a layer of one octet has two: the validator passes both, every digest in place,
   and their manifests, so their manifest digests unless those collide, are different.
   */
  lemma AliasedEvidence(layers: seq<Layer>, entrypoint: seq<text>, cmd: seq<text>, path: text, sha: bytes -> text,
                        k: nat) returns (e: Evidence, f: Evidence)
    requires ImageOk(layers, entrypoint, cmd) && HexDigests(sha) && k < |layers| && layers[k].size == 1
    ensures Valid(e, sha) && Valid(f, sha) && e.layers == f.layers == layers && e.config == f.config
    ensures e.entrypoint == f.entrypoint == entrypoint && e.cmd == f.cmd == cmd && e.manifest != f.manifest
  {
    ImageIsOk(layers, entrypoint, cmd, path);
    hide *;
    var d := Configured(Image(layers, entrypoint, cmd, path), sha);
    OrdinaryFits(d, sha);
    OneAsTrueFits(d, sha, k);
    e := Assembled(d, Ordinary(d), sha);
    f := Assembled(d, OneAsTrue(d, k), sha);
  }

  lemma Configured(d: Evidence, sha: bytes -> text) returns (e: Evidence)
    requires WellLayered(d) && ArgumentsOk(d.entrypoint, d.cmd) && HexDigests(sha)
    ensures ConfigOk(e, sha) && e.layers == d.layers && e.entrypoint == d.entrypoint && e.cmd == d.cmd
  {
    ConfigFits(d);
    ConfigText(d);
    var octets := Text(ConfigDoc(d));
    hide Text, ArgumentsOk, LayersOk, WellLayered, HexDigest, Matches, ConfigDoc, OciPreflight.Passes;
    e := d.(config := octets, configDigest := sha(octets), configSize := |octets|);
    SameConfig(d, e);
  }

  lemma ConfigText(d: Evidence)
    ensures Matches(Text(ConfigDoc(d)), ConfigDoc(d), false) && |Text(ConfigDoc(d))| >= 2
  {
    hide Text, Ordered;
    ConfigOrdered(d);
    TextMatches(ConfigDoc(d));
  }

  lemma SameConfig(d: Evidence, e: Evidence)
    requires e == d.(config := e.config, configDigest := e.configDigest, configSize := e.configSize)
    ensures ConfigDoc(e) == ConfigDoc(d) && (WellLayered(d) ==> WellLayered(e))
  {
    hide LayersOk;
  }

  lemma Manifested(d: Evidence, octets: bytes, sha: bytes -> text) returns (e: Evidence)
    requires Matches(octets, ManifestDoc(d, LayerDocs(d)), false)
    ensures e == d.(manifest := octets, manifestDigest := sha(octets), manifestSize := |octets|)
    ensures Matches(e.manifest, ManifestDoc(e, LayerDocs(e)), false)
    ensures ConfigDoc(e) == ConfigDoc(d)
  {
    hide Text, Ordered, Matches;
    e := d.(manifest := octets, manifestDigest := sha(octets), manifestSize := |octets|);
    assert LayerDocs(e) == LayerDocs(d);
  }

  lemma Indexed(d: Evidence, sha: bytes -> text) returns (e: Evidence)
    requires HexDigest(d.manifestDigest) && 0 <= d.manifestSize <= MAX_MANIFEST
    ensures var octets := Text(IndexDoc(d));
            e == d.(index := octets, indexDigest := sha(octets), indexSize := |octets|)
    ensures Matches(e.index, IndexDoc(e), false) && 2 <= e.indexSize <= MAX_INDEX
    ensures OciPreflight.Passes(e.index, MAX_INDEX)
    ensures ConfigDoc(e) == ConfigDoc(d) && ManifestDoc(e, LayerDocs(e)) == ManifestDoc(d, LayerDocs(d))
  {
    IndexFits(d);
    hide Text, Ordered, HexDigest, OciPreflight.Passes;
    var octets := Text(IndexDoc(d));
    e := d.(index := octets, indexDigest := sha(octets), indexSize := |octets|);
    IndexOrdered(d);
    TextMatches(IndexDoc(d));
    assert IndexDoc(e) == IndexDoc(d) && LayerDocs(e) == LayerDocs(d);
  }
}
