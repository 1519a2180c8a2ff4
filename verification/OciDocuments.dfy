/**
 What V4 evidence says, read off its documents: each octet string is decoded and its values are looked
 up by their keys.
 */
module OciDocuments {
  import opened Bytes
  import opened CanonicalJson
  import opened Sorting
  import opened OciGraph
  import opened OciEvidence
  import JsonReader
  import OciPreflight

  /** The value under a key, if v is a dict that has it. */
  function Get(v: Json, key: string): Option<Json> {
    if v.Dict? && Find(v.fields, Ascii(key)) < |v.fields|
    then Some(v.fields[Find(v.fields, Ascii(key))].value) else None
  }

  predicate HasSize(v: Json, n: nat) { v.Dict? && |v.fields| == n }

  predicate IsText(v: Option<Json>, s: text) { v == Some(Str(s)) }

  /** In the numeric comparison of the source, in which true is one. */
  predicate IsNumber(v: Option<Json>, n: int) { v.Some? && Number(v.value) == Some(n) }

  predicate AreTexts(v: Option<Json>, prefix: text, s: seq<text>) {
    v.Some? && v.value.List? && |v.value.items| == |s|
    && forall i :: 0 <= i < |s| ==> v.value.items[i] == Str(prefix + s[i])
  }

  predicate SaysDescriptor(v: Json, digest: text, mediaType: string, size: int) {
    && HasSize(v, 3)
    && IsText(Get(v, "digest"), Ascii("sha256:") + digest)
    && IsText(Get(v, "mediaType"), Ascii(mediaType))
    && IsNumber(Get(v, "size"), size)
  }

  predicate SaysLayer(v: Json, l: Layer) {
    SaysDescriptor(v, l.digest, "application/vnd.oci.image.layer.v1.tar+gzip", l.size)
  }

  /** An image configuration with these arguments and these diff ids. */
  predicate SaysConfig(v: Json, entrypoint: seq<text>, cmd: seq<text>, diffIds: seq<text>) {
    var c, r := Get(v, "config"), Get(v, "rootfs");
    && HasSize(v, 4)
    && IsText(Get(v, "architecture"), Ascii("amd64")) && IsText(Get(v, "os"), Ascii("linux"))
    && c.Some? && HasSize(c.value, 2)
    && AreTexts(Get(c.value, "Entrypoint"), [], entrypoint) && AreTexts(Get(c.value, "Cmd"), [], cmd)
    && r.Some? && HasSize(r.value, 2)
    && IsText(Get(r.value, "type"), Ascii("layers"))
    && AreTexts(Get(r.value, "diff_ids"), Ascii("sha256:"), diffIds)
  }

  /** An image manifest with this configuration and these layers, bottom layer first. */
  predicate SaysManifest(v: Json, configDigest: text, configSize: int, layers: seq<Layer>) {
    var c, l := Get(v, "config"), Get(v, "layers");
    && HasSize(v, 4)
    && IsText(Get(v, "mediaType"), Ascii("application/vnd.oci.image.manifest.v1+json"))
    && IsNumber(Get(v, "schemaVersion"), 2)
    && c.Some? && SaysDescriptor(c.value, configDigest, "application/vnd.oci.image.config.v1+json", configSize)
    && l.Some? && l.value.List? && |l.value.items| == |layers|
    && forall i :: 0 <= i < |layers| ==>
         SaysLayer(l.value.items[i], layers[i])
  }

  /** An index of one manifest, for Linux on amd64. */
  predicate SaysIndex(v: Json, manifestDigest: text, manifestSize: int) {
    var ms := Get(v, "manifests");
    && HasSize(v, 3)
    && IsText(Get(v, "mediaType"), Ascii("application/vnd.oci.image.index.v1+json"))
    && IsNumber(Get(v, "schemaVersion"), 2)
    && ms.Some? && ms.value.List? && |ms.value.items| == 1
    && SaysSelected(ms.value.items[0], manifestDigest, manifestSize)
  }

  predicate SaysSelected(v: Json, digest: text, size: int) {
    var p := Get(v, "platform");
    && HasSize(v, 4)
    && IsText(Get(v, "digest"), Ascii("sha256:") + digest)
    && IsText(Get(v, "mediaType"), Ascii("application/vnd.oci.image.manifest.v1+json"))
    && IsNumber(Get(v, "size"), size)
    && p.Some? && HasSize(p.value, 2)
    && IsText(Get(p.value, "architecture"), Ascii("amd64")) && IsText(Get(p.value, "os"), Ascii("linux"))
  }

  // Looking up instead of comparing -------------------------------------------

  /** A decoded dict equals an ordered one exactly when it has as many keys and the same under each. */
  lemma EqualByLookup(v: Json, doc: Json, exact: bool)
    requires Ordered(v) && Ordered(doc) && doc.Dict?
    ensures TreesEqual(v, doc, exact) <==>
      && v.Dict? && |v.fields| == |doc.fields|
      && forall j :: 0 <= j < |doc.fields| ==>
           var k := Find(v.fields, doc.fields[j].key);
           k < |v.fields| && TreesEqual(v.fields[k].value, doc.fields[j].value, exact)
  {
    if v.Dict? && |v.fields| == |doc.fields| {
      hide Ordered;
      OrderedIsAscending(v);
      OrderedIsAscending(doc);
      if TreesEqual(v, doc, exact) {
        forall j | 0 <= j < |doc.fields|
          ensures Find(v.fields, doc.fields[j].key) == j
          ensures TreesEqual(v.fields[j].value, doc.fields[j].value, exact)
        {
          KeysAgree(v.fields, doc.fields, j);
          FoundAt(v.fields, j);
        }
      } else if forall j :: 0 <= j < |doc.fields| ==>
                  var k := Find(v.fields, doc.fields[j].key);
                  k < |v.fields| && TreesEqual(v.fields[k].value, doc.fields[j].value, exact) {
        forall i | 0 <= i < |v.fields|
          ensures v.fields[i].key == doc.fields[i].key && TreesEqual(v.fields[i].value, doc.fields[i].value, exact)
        {
          KeysAgree(doc.fields, v.fields, i);
        }
        FromPlaces(v, doc, exact);
      }
    }
  }

  lemma OrderedIsAscending(v: Json)
    requires Ordered(v) && v.Dict?
    ensures Ascending(v.fields) && forall i :: 0 <= i < |v.fields| ==> Ordered(v.fields[i].value)
  {
  }

  lemma FoundAt(fields: seq<Field>, i: nat)
    requires Ascending(fields) && i < |fields|
    ensures Find(fields, fields[i].key) == i
  {
  }

  /** The value under a key of the document, when there is one. */
  ghost predicate Under(v: Json, key: string, doc: Json, exact: bool) {
    Get(v, key).Some? && TreesEqual(Get(v, key).value, doc, exact)
  }

  lemma EqualByKeys(v: Json, doc: Json, keys: seq<string>)
    requires Ordered(v) && Ordered(doc) && doc.Dict? && |doc.fields| == |keys|
    requires forall j :: 0 <= j < |keys| ==> doc.fields[j].key == Ascii(keys[j])
    ensures TreesEqual(v, doc, false) <==>
      HasSize(v, |keys|) && forall j :: 0 <= j < |keys| ==> Under(v, keys[j], doc.fields[j].value, false)
  {
    hide Ordered, TreesEqual, Ascii;
    EqualByLookup(v, doc, false);
    if v.Dict? {
      forall j | 0 <= j < |keys|
        ensures Under(v, keys[j], doc.fields[j].value, false) <==>
                var k := Find(v.fields, doc.fields[j].key);
                k < |v.fields| && TreesEqual(v.fields[k].value, doc.fields[j].value, false)
      {
      }
    }
  }

  lemma EqualByTwo(v: Json, k: string, x: Json, l: string, y: Json)
    requires var doc := Dict([Field(Ascii(k), x), Field(Ascii(l), y)]); Ordered(v) && Ordered(doc)
    ensures TreesEqual(v, Dict([Field(Ascii(k), x), Field(Ascii(l), y)]), false) <==>
      HasSize(v, 2) && Under(v, k, x, false) && Under(v, l, y, false)
  {
    hide Ordered, TreesEqual, Ascii, Under, HasSize;
    var keys, doc := [k, l], Dict([Field(Ascii(k), x), Field(Ascii(l), y)]);
    EqualByKeys(v, doc, keys);
    assert doc.fields[0].value == x && doc.fields[1].value == y && keys[0] == k && keys[1] == l;
  }

  lemma EqualByThree(v: Json, k: string, x: Json, l: string, y: Json, m: string, z: Json)
    requires Ordered(v) && Ordered(Dict([Field(Ascii(k), x), Field(Ascii(l), y), Field(Ascii(m), z)]))
    ensures TreesEqual(v, Dict([Field(Ascii(k), x), Field(Ascii(l), y), Field(Ascii(m), z)]), false) <==>
      HasSize(v, 3) && Under(v, k, x, false) && Under(v, l, y, false) && Under(v, m, z, false)
  {
    hide Ordered, TreesEqual, Ascii, Under, HasSize;
    var keys, doc := [k, l, m], Dict([Field(Ascii(k), x), Field(Ascii(l), y), Field(Ascii(m), z)]);
    EqualByKeys(v, doc, keys);
    assert doc.fields[0].value == x && doc.fields[1].value == y && doc.fields[2].value == z;
    assert keys[0] == k && keys[1] == l && keys[2] == m;
  }

  lemma EqualByFour(v: Json, k: string, x: Json, l: string, y: Json, m: string, z: Json, n: string, w: Json)
    requires Ordered(v)
    requires Ordered(Dict([Field(Ascii(k), x), Field(Ascii(l), y), Field(Ascii(m), z), Field(Ascii(n), w)]))
    ensures
      TreesEqual(v, Dict([Field(Ascii(k), x), Field(Ascii(l), y), Field(Ascii(m), z), Field(Ascii(n), w)]), false) <==>
        && HasSize(v, 4) && Under(v, k, x, false) && Under(v, l, y, false)
        && Under(v, m, z, false) && Under(v, n, w, false)
  {
    hide Ordered, TreesEqual, Ascii, Under, HasSize;
    var keys := [k, l, m, n];
    var doc := Dict([Field(Ascii(k), x), Field(Ascii(l), y), Field(Ascii(m), z), Field(Ascii(n), w)]);
    EqualByKeys(v, doc, keys);
    assert doc.fields[0].value == x && doc.fields[1].value == y;
    assert doc.fields[2].value == z && doc.fields[3].value == w;
    assert keys[0] == k && keys[1] == l && keys[2] == m && keys[3] == n;
  }

  lemma GotOrdered(v: Json, key: string)
    requires Ordered(v)
    ensures Get(v, key).Some? ==> Ordered(Get(v, key).value)
  {
  }

  lemma EqualToText(x: Json, s: text)
    ensures TreesEqual(x, Str(s), false) <==> x == Str(s)
  {
    match x
    case List(_) =>
    case Dict(_) =>
    case _ =>
  }

  lemma EqualToNumber(x: Json, n: int)
    ensures TreesEqual(x, Int(n), false) <==> Number(x) == Some(n)
  {
    assert Number(Int(n)) == Some(n);
    match x
    case List(_) =>
    case Dict(_) =>
    case _ =>
  }

  lemma EqualToTexts(x: Json, items: seq<Json>, s: seq<text>)
    requires |items| == |s| && forall i :: 0 <= i < |s| ==> items[i] == Str(s[i])
    ensures TreesEqual(x, List(items), false) <==>
      x.List? && |x.items| == |s| && forall i :: 0 <= i < |s| ==> x.items[i] == Str(s[i])
  {
    if x.List? && |x.items| == |s| {
      forall i | 0 <= i < |s| ensures TreesEqual(x.items[i], items[i], false) <==> x.items[i] == Str(s[i]) {
        EqualToText(x.items[i], s[i]);
      }
    }
  }

  lemma UnderText(v: Json, key: string, s: text)
    ensures Under(v, key, Str(s), false) <==> IsText(Get(v, key), s)
  {
    if Get(v, key).Some? {
      EqualToText(Get(v, key).value, s);
    }
  }

  lemma UnderNumber(v: Json, key: string, n: int)
    ensures Under(v, key, Int(n), false) <==> IsNumber(Get(v, key), n)
  {
    if Get(v, key).Some? {
      EqualToNumber(Get(v, key).value, n);
    }
  }

  lemma UnderTexts(v: Json, key: string, s: seq<text>)
    ensures Under(v, key, Texts(s), false) <==> AreTexts(Get(v, key), [], s)
  {
    hide TreesEqual, Get;
    if Get(v, key).Some? {
      EqualToTexts(Get(v, key).value, Texts(s).items, s);
    }
    forall i | 0 <= i < |s| ensures [] + s[i] == s[i] { }
  }

  lemma UnderNamedTexts(v: Json, key: string, s: seq<text>)
    ensures Under(v, key, NamedTexts(s), false) <==> AreTexts(Get(v, key), Ascii("sha256:"), s)
  {
    hide TreesEqual, Get, Ascii;
    var named := seq(|s|, i requires 0 <= i < |s| => Named(s[i]));
    if Get(v, key).Some? {
      EqualToTexts(Get(v, key).value, NamedTexts(s).items, named);
      forall i | 0 <= i < |s| ensures named[i] == Ascii("sha256:") + s[i] { }
    }
  }

  // The documents ---------------------------------------------------------------

  lemma DescriptorSaid(v: Json, digest: text, mediaType: string, size: int)
    requires Ordered(v)
    ensures TreesEqual(v, Descriptor(digest, mediaType, Int(size)), false) <==>
            SaysDescriptor(v, digest, mediaType, size)
  {
    var doc := Descriptor(digest, mediaType, Int(size));
    DescriptorOrdered(digest, mediaType, Int(size));
    UnderText(v, "digest", Named(digest));
    UnderText(v, "mediaType", Ascii(mediaType));
    UnderNumber(v, "size", size);
    hide Ordered, TreesEqual, Ascii, Under, Get, HasSize;
    EqualByThree(v, "digest", Str(Named(digest)), "mediaType", Str(Ascii(mediaType)), "size", Int(size));
  }

  lemma UnderDescriptor(v: Json, key: string, digest: text, mediaType: string, size: int)
    requires Ordered(v)
    ensures Under(v, key, Descriptor(digest, mediaType, Int(size)), false) <==>
            Get(v, key).Some? && SaysDescriptor(Get(v, key).value, digest, mediaType, size)
  {
    GotOrdered(v, key);
    hide TreesEqual, Get, Ordered, SaysDescriptor;
    if Get(v, key).Some? {
      DescriptorSaid(Get(v, key).value, digest, mediaType, size);
    }
  }

  lemma ArgumentsSaid(v: Json, e: Evidence)
    requires Ordered(v)
    ensures TreesEqual(v, ArgumentsDoc(e), false) <==>
      HasSize(v, 2) && AreTexts(Get(v, "Entrypoint"), [], e.entrypoint) && AreTexts(Get(v, "Cmd"), [], e.cmd)
  {
    var doc := ArgumentsDoc(e);
    ConfigOrdered(e);
    assert ConfigDoc(e).fields[1].value == doc;
    UnderTexts(v, "Cmd", e.cmd);
    UnderTexts(v, "Entrypoint", e.entrypoint);
    hide Ordered, TreesEqual, Ascii, Under, Get, HasSize, AreTexts, Texts;
    EqualByTwo(v, "Cmd", Texts(e.cmd), "Entrypoint", Texts(e.entrypoint));
  }

  lemma RootSaid(v: Json, e: Evidence)
    requires Ordered(v)
    ensures TreesEqual(v, RootDoc(e), false) <==>
      && HasSize(v, 2) && IsText(Get(v, "type"), Ascii("layers"))
      && AreTexts(Get(v, "diff_ids"), Ascii("sha256:"), e.diffIds)
  {
    var doc := RootDoc(e);
    ConfigOrdered(e);
    assert ConfigDoc(e).fields[3].value == doc;
    UnderNamedTexts(v, "diff_ids", e.diffIds);
    UnderText(v, "type", Ascii("layers"));
    hide Ordered, TreesEqual, Ascii, Under, Get, HasSize, AreTexts, NamedTexts;
    EqualByTwo(v, "diff_ids", NamedTexts(e.diffIds), "type", Str(Ascii("layers")));
  }

  lemma UnderArguments(v: Json, e: Evidence)
    requires Ordered(v)
    ensures Under(v, "config", ArgumentsDoc(e), false) <==>
      var c := Get(v, "config");
      && c.Some? && HasSize(c.value, 2)
      && AreTexts(Get(c.value, "Entrypoint"), [], e.entrypoint) && AreTexts(Get(c.value, "Cmd"), [], e.cmd)
  {
    GotOrdered(v, "config");
    hide Ordered, TreesEqual, Get, HasSize, AreTexts, ArgumentsDoc;
    if Get(v, "config").Some? {
      ArgumentsSaid(Get(v, "config").value, e);
    }
  }

  lemma UnderRoot(v: Json, e: Evidence)
    requires Ordered(v)
    ensures Under(v, "rootfs", RootDoc(e), false) <==>
      var r := Get(v, "rootfs");
      && r.Some? && HasSize(r.value, 2) && IsText(Get(r.value, "type"), Ascii("layers"))
      && AreTexts(Get(r.value, "diff_ids"), Ascii("sha256:"), e.diffIds)
  {
    GotOrdered(v, "rootfs");
    hide Ordered, TreesEqual, Get, HasSize, AreTexts, RootDoc, IsText, Ascii;
    if Get(v, "rootfs").Some? {
      RootSaid(Get(v, "rootfs").value, e);
    }
  }

  lemma ConfigSaid(v: Json, e: Evidence)
    requires Ordered(v)
    ensures TreesEqual(v, ConfigDoc(e), false) <==> SaysConfig(v, e.entrypoint, e.cmd, e.diffIds)
  {
    hide Ordered, TreesEqual, Ascii, Under, Get, HasSize, AreTexts, IsText, ArgumentsDoc, RootDoc;
    ConfigOrdered(e);
    UnderText(v, "architecture", Ascii("amd64"));
    UnderText(v, "os", Ascii("linux"));
    UnderArguments(v, e);
    UnderRoot(v, e);
    EqualByFour(v, "architecture", Str(Ascii("amd64")), "config", ArgumentsDoc(e), "os", Str(Ascii("linux")),
      "rootfs", RootDoc(e));
  }

  lemma LayersSaid(x: Json, e: Evidence)
    requires Ordered(x)
    ensures TreesEqual(x, List(LayerDocs(e)), false) <==>
      && x.List? && |x.items| == |e.layers|
      && forall i :: 0 <= i < |e.layers| ==>
           SaysLayer(x.items[i], e.layers[i])
  {
    if x.List? && |x.items| == |e.layers| {
      forall i | 0 <= i < |e.layers|
        ensures TreesEqual(x.items[i], LayerDocs(e)[i], false) <==> SaysLayer(x.items[i], e.layers[i])
      {
        hide TreesEqual, SaysDescriptor, Descriptor;
        DescriptorSaid(x.items[i], e.layers[i].digest, "application/vnd.oci.image.layer.v1.tar+gzip", e.layers[i].size);
      }
    }
  }

  lemma UnderLayers(v: Json, e: Evidence)
    requires Ordered(v)
    ensures Under(v, "layers", List(LayerDocs(e)), false) <==>
      var l := Get(v, "layers");
      && l.Some? && l.value.List? && |l.value.items| == |e.layers|
      && forall i :: 0 <= i < |e.layers| ==>
           SaysLayer(l.value.items[i], e.layers[i])
  {
    GotOrdered(v, "layers");
    hide Ordered, TreesEqual, Get, SaysLayer, LayerDocs;
    if Get(v, "layers").Some? {
      LayersSaid(Get(v, "layers").value, e);
    }
  }

  lemma ManifestSaid(v: Json, e: Evidence)
    requires Ordered(v)
    ensures TreesEqual(v, ManifestDoc(e, LayerDocs(e)), false) <==>
            SaysManifest(v, e.configDigest, e.configSize, e.layers)
  {
    LayersOrdered(e);
    ManifestOrdered(e, LayerDocs(e));
    hide Ordered, TreesEqual, Ascii, Under, Get, HasSize, SaysDescriptor, Descriptor, LayerDocs, IsText, IsNumber;
    UnderDescriptor(v, "config", e.configDigest, "application/vnd.oci.image.config.v1+json", e.configSize);
    UnderText(v, "mediaType", Ascii("application/vnd.oci.image.manifest.v1+json"));
    UnderNumber(v, "schemaVersion", 2);
    UnderLayers(v, e);
    EqualByFour(v, "config",
      Descriptor(e.configDigest, "application/vnd.oci.image.config.v1+json", Int(e.configSize)),
      "layers", List(LayerDocs(e)), "mediaType", Str(Ascii("application/vnd.oci.image.manifest.v1+json")),
      "schemaVersion", Int(2));
  }

  lemma SelectedSaid(v: Json, e: Evidence)
    requires Ordered(v)
    ensures TreesEqual(v, SelectedDoc(e), false) <==> SaysSelected(v, e.manifestDigest, e.manifestSize)
  {
    var doc := SelectedDoc(e);
    SelectedOrdered(e);
    UnderText(v, "digest", Named(e.manifestDigest));
    UnderText(v, "mediaType", Ascii("application/vnd.oci.image.manifest.v1+json"));
    UnderNumber(v, "size", e.manifestSize);
    GotOrdered(v, "platform");
    if Get(v, "platform").Some? {
      PlatformSaid(Get(v, "platform").value);
    }
    assert Under(v, "platform", Platform(), false) <==>
           Get(v, "platform").Some? && TreesEqual(Get(v, "platform").value, Platform(), false);
    hide Ordered, TreesEqual, Ascii, Under, Get, HasSize, Platform, IsText, IsNumber;
    EqualByFour(v, "digest", Str(Named(e.manifestDigest)),
      "mediaType", Str(Ascii("application/vnd.oci.image.manifest.v1+json")), "platform", Platform(),
      "size", Int(e.manifestSize));
  }

  lemma PlatformSaid(v: Json)
    requires Ordered(v)
    ensures TreesEqual(v, Platform(), false) <==>
      HasSize(v, 2) && IsText(Get(v, "architecture"), Ascii("amd64")) && IsText(Get(v, "os"), Ascii("linux"))
  {
    Before("architecture", "os");
    assert Ordered(Platform());
    UnderText(v, "architecture", Ascii("amd64"));
    UnderText(v, "os", Ascii("linux"));
    hide Ordered, TreesEqual, Ascii, Under, Get, HasSize, IsText;
    EqualByTwo(v, "architecture", Str(Ascii("amd64")), "os", Str(Ascii("linux")));
  }

  lemma UnderSelected(v: Json, e: Evidence)
    requires Ordered(v)
    ensures Under(v, "manifests", List([SelectedDoc(e)]), false) <==>
      var ms := Get(v, "manifests");
      && ms.Some? && ms.value.List? && |ms.value.items| == 1
      && SaysSelected(ms.value.items[0], e.manifestDigest, e.manifestSize)
  {
    GotOrdered(v, "manifests");
    hide Get, SaysSelected, SelectedDoc;
    if Get(v, "manifests").Some? && Get(v, "manifests").value.List? && |Get(v, "manifests").value.items| == 1 {
      SelectedSaid(Get(v, "manifests").value.items[0], e);
    }
  }

  lemma IndexSaid(v: Json, e: Evidence)
    requires Ordered(v)
    ensures TreesEqual(v, IndexDoc(e), false) <==> SaysIndex(v, e.manifestDigest, e.manifestSize)
  {
    hide Ordered, TreesEqual, Ascii, Under, Get, HasSize, SelectedDoc, IsText, IsNumber, SaysSelected;
    IndexOrdered(e);
    UnderText(v, "mediaType", Ascii("application/vnd.oci.image.index.v1+json"));
    UnderNumber(v, "schemaVersion", 2);
    UnderSelected(v, e);
    EqualByThree(v, "manifests", List([SelectedDoc(e)]),
      "mediaType", Str(Ascii("application/vnd.oci.image.index.v1+json")), "schemaVersion", Int(2));
  }

  // Evidence ----------------------------------------------------------------------

  /** Canonical octets of a dict: decoding and printing them again changes nothing, and keys ascend. */
  ghost predicate Canonical(octets: bytes) {
    var v := JsonReader.Read(octets);
    v.Some? && v.value.Dict? && Ordered(v.value) && Text(v.value) == octets
  }

  /** What the octets decode to. */
  function Decoded(octets: bytes): Json
    requires JsonReader.Read(octets).Some?
  {
    JsonReader.Read(octets).value
  }

  lemma MatchesByDecoding(octets: bytes, doc: Json)
    ensures Matches(octets, doc, false) <==> Canonical(octets) && TreesEqual(Decoded(octets), doc, false)
  {
    hide Text, TreesEqual, Ordered, JsonReader.Read;
    if v: Json :| v.Dict? && Ordered(v) && Text(v) == octets && TreesEqual(v, doc, false) {
      JsonReader.PrintedIsRead(v);
    }
  }

  predicate HexText(t: text) {
    |t| == 64 && forall i :: 0 <= i < 64 ==> '0' as int <= t[i] <= '9' as int || 'a' as int <= t[i] <= 'f' as int
  }

  predicate ArgumentText(t: text) {
    1 <= |t| <= 256 && forall i :: 0 <= i < |t| ==>
      || '0' as int <= t[i] <= '9' as int || 'A' as int <= t[i] <= 'Z' as int || 'a' as int <= t[i] <= 'z' as int
      || t[i] == '.' as int || t[i] == '_' as int || t[i] == '/' as int || t[i] == ':' as int || t[i] == '=' as int
      || t[i] == '@' as int || t[i] == '+' as int || t[i] == ',' as int || t[i] == '%' as int || t[i] == '-' as int
  }

  /** One to 32 layers of one octet to one gibibyte, their digests and their diff ids all different. */
  predicate LayersDeclared(layers: seq<Layer>) {
    && 1 <= |layers| <= 32
    && (forall i :: 0 <= i < |layers| ==>
          1 <= layers[i].size <= 1_073_741_824 && HexText(layers[i].digest) && HexText(layers[i].diffId))
    && forall i, j :: 0 <= i < |layers| && 0 <= j < |layers| && i != j ==>
         layers[i].digest != layers[j].digest && layers[i].diffId != layers[j].diffId
  }

  /** An absolute program with at most 127 arguments, and at most 64 more. */
  predicate ArgumentsDeclared(entrypoint: seq<text>, cmd: seq<text>) {
    && 1 <= |entrypoint| <= 128 && |cmd| <= 64
    && (forall t :: t in entrypoint + cmd ==> ArgumentText(t))
    && entrypoint[0] != [] && entrypoint[0][0] == '/' as int
  }

  /** The diff ids are the layers', and the wrapper lies in the topmost layer, where it was inspected. */
  predicate TopmostDeclared(e: Evidence) {
    && |e.layers| >= 1
    && |e.diffIds| == |e.layers| && (forall i :: 0 <= i < |e.layers| ==> e.diffIds[i] == e.layers[i].diffId)
    && e.wrapperOrdinal == |e.layers| - 1 && e.wrapperLayer == e.layers[|e.layers| - 1].digest
    && e.inspectedLayer == e.wrapperLayer && e.inspectedPath == e.wrapperPath
  }

  lemma Declared(e: Evidence)
    ensures WellLayered(e) <==> LayersDeclared(e.layers) && TopmostDeclared(e)
    ensures ArgumentsOk(e.entrypoint, e.cmd) <==> ArgumentsDeclared(e.entrypoint, e.cmd)
    ensures forall t: text :: HexDigest(t) <==> HexText(t)
  {
    forall t: text ensures Argument(t) <==> ArgumentText(t) { }
    LayersAgree(e.layers);
    hide Argument, ArgumentText, LayersOk, LayersDeclared;
    if ArgumentsDeclared(e.entrypoint, e.cmd) {
      forall i | 0 <= i < |e.entrypoint| ensures Argument(e.entrypoint[i]) {
        assert e.entrypoint[i] in e.entrypoint + e.cmd;
      }
      forall i | 0 <= i < |e.cmd| ensures Argument(e.cmd[i]) {
        assert e.cmd[i] in e.entrypoint + e.cmd;
      }
    }
  }

  lemma LayersAgree(layers: seq<Layer>)
    ensures LayersOk(layers) <==> LayersDeclared(layers)
  {
    if LayersOk(layers) {
      forall i, j | 0 <= i < |layers| && 0 <= j < |layers| && i != j
        ensures layers[i].digest != layers[j].digest && layers[i].diffId != layers[j].diffId
      {
        assert i < j || j < i;
      }
    }
  }

  /**
   Evidence is valid exactly when each of its documents is canonical, of the stated size and digest and
   within its limits, and, decoded, says by its keys what the evidence declares: the configuration the
   entrypoint, the command and the diff ids; the manifest the configuration and the layers in order; and
   the index the manifest.
   */
  lemma ValidSaysWhatItDeclares(e: Evidence, sha: bytes -> text)
    ensures Valid(e, sha) <==>
      && 2 <= |e.index| == e.indexSize <= 8192 && 2 <= |e.manifest| == e.manifestSize <= 8192
      && 2 <= |e.config| == e.configSize <= 65536
      && OciPreflight.Passes(e.index, 8192) && OciPreflight.Passes(e.manifest, 8192)
      && OciPreflight.Passes(e.config, 65536)
      && HexText(e.indexDigest) && HexText(e.manifestDigest) && HexText(e.configDigest)
      && sha(e.index) == e.indexDigest && sha(e.manifest) == e.manifestDigest && sha(e.config) == e.configDigest
      && Canonical(e.config) && SaysConfig(Decoded(e.config), e.entrypoint, e.cmd, e.diffIds)
      && Canonical(e.manifest) && SaysManifest(Decoded(e.manifest), e.configDigest, e.configSize, e.layers)
      && Canonical(e.index) && SaysIndex(Decoded(e.index), e.manifestDigest, e.manifestSize)
      && LayersDeclared(e.layers) && ArgumentsDeclared(e.entrypoint, e.cmd) && TopmostDeclared(e)
  {
    Declared(e);
    MatchesByDecoding(e.index, IndexDoc(e));
    MatchesByDecoding(e.manifest, ManifestDoc(e, LayerDocs(e)));
    MatchesByDecoding(e.config, ConfigDoc(e));
    hide Matches, TreesEqual, IndexDoc, ManifestDoc, ConfigDoc, LayerDocs, SaysConfig, SaysManifest, SaysIndex,
      WellLayered, ArgumentsOk, HexDigest, Ordered, Text, OciPreflight.Passes, JsonReader.Read, LayersDeclared,
      ArgumentsDeclared, TopmostDeclared, HexText;
    if Canonical(e.config) { ConfigSaid(Decoded(e.config), e); }
    if Canonical(e.manifest) { ManifestSaid(Decoded(e.manifest), e); }
    if Canonical(e.index) { IndexSaid(Decoded(e.index), e); }
  }
}
