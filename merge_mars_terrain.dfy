/**
 * The asset script that merges the terrain tiles into one scene: from the
 * pixel widths of a tile's four JPEG tiers it derives the tile's texture
 * metadata, and serialises it into the custom-data string attached to the
 * tile's mesh. File names are handled with POSIX `os.path.basename` and
 * `os.path.splitext`.
 */
module MergeMarsTerrain {
  import opened Wrappers
  import opened Strings

  /** `os.path.basename` (POSIX): everything after the last '/'. */
  function Basename(p: string): (r: string)
    ensures '/' !in r
    ensures |r| <= |p| && p[|p| - |r|..] == r
  {
    var k := LastIndexOf(p, '/');
    var r := p[k + 1..];
    assert forall i | 0 <= i < |r| :: r[i] != '/' by {
      forall i | 0 <= i < |r| ensures r[i] != '/' {
        assert r[i] == p[k + 1 + i];
      }
    }
    r
  }

  /** Some character of `p[lo..hi]` is not a '.'. */
  predicate HasNonDot(p: string, lo: nat, hi: nat)
    requires lo <= hi <= |p|
  {
    exists k :: lo <= k < hi && p[k] != '.'
  }

  /**
   * `os.path.splitext` (POSIX): the extension starts at the last '.' after
   * the last '/', unless everything between that '/' and the dot is dots
   * (a hidden file such as ".bashrc" has no extension).
   */
  function SplitExt(p: string): (r: (string, string))
    ensures r.0 + r.1 == p
    ensures r.1 != [] ==> r.1[0] == '.'
    ensures forall k :: 0 < k < |r.1| ==> r.1[k] != '.' && r.1[k] != '/'
  {
    var sep := LastIndexOf(p, '/');
    var dot := LastIndexOf(p, '.');
    if dot > sep && HasNonDot(p, sep + 1, dot) then
      assert forall k :: 0 < k < |p[dot..]| ==> p[dot..][k] == p[dot + k];
      (p[..dot], p[dot..])
    else
      (p, "")
  }

  /** The last '/' of `dir/name` is the one before `name` when `name` holds none. */
  lemma BasenameOfPath(dir: string, name: string)
    requires '/' !in name
    ensures Basename(dir + "/" + name) == name
  {
    var p := dir + "/" + name;
    assert p[|dir|] == '/';
    assert forall k :: |dir| < k < |p| ==> p[k] == name[k - |dir| - 1];
    assert LastIndexOf(p, '/') == |dir|;
    assert p[|dir| + 1..] == name;
  }

  /** A file name `stem.ext` without further dots or slashes splits into `stem` and `.ext`. */
  lemma SplitExtOfName(stem: string, ext: string)
    requires stem != [] && '/' !in stem && '.' !in stem
    requires '/' !in ext && '.' !in ext
    ensures SplitExt(stem + "." + ext) == (stem, "." + ext)
  {
    var name := stem + "." + ext;
    assert name[|stem|] == '.';
    assert forall k :: |stem| < k < |name| ==> name[k] == ext[k - |stem| - 1];
    assert LastIndexOf(name, '.') == |stem|;
    assert forall k :: 0 <= k < |name| ==> name[k] != '/';
    assert LastIndexOf(name, '/') == -1;
    assert HasNonDot(name, 0, |stem|) by {
      assert name[0] == stem[0];
    }
    assert name[..|stem|] == stem && name[|stem|..] == "." + ext;
  }

  /** `isTileMesh`: every file except the collision mesh `simple` and the `background` mesh. */
  function IsTileMesh(f: string): (r: bool)
    ensures !r <==> SplitExt(f).0 == "simple" || SplitExt(f).0 == "background"
  {
    SplitExt(f).0 != "simple" && SplitExt(f).0 != "background"
  }

  /** For a file `stem.ext`, `isTileMesh` looks at the stem alone. */
  lemma IsTileMeshByStem(stem: string, ext: string)
    requires stem != [] && '/' !in stem && '.' !in stem
    requires '/' !in ext && '.' !in ext
    ensures IsTileMesh(stem + "." + ext) <==> stem != "simple" && stem != "background"
  {
    SplitExtOfName(stem, ext);
  }

  /** The tile ID of a texture file: its base name without the extension. */
  function TileId(filename: string): (r: string)
    ensures '/' !in r
    ensures r + SplitExt(Basename(filename)).1 == Basename(filename)
  {
    var b := Basename(filename);
    assert b == SplitExt(b).0 + SplitExt(b).1;
    assert forall c :: c in SplitExt(b).0 ==> c in b;
    SplitExt(b).0
  }

  /** The ID of `dir/ID.jpg` is `ID`. */
  lemma TileIdOfPath(dir: string, id: string)
    requires id != [] && '/' !in id && '.' !in id
    ensures TileId(dir + "/" + id + ".jpg") == id
  {
    assert dir + "/" + id + ".jpg" == dir + "/" + (id + "." + "jpg");
    BasenameOfPath(dir, id + "." + "jpg");
    SplitExtOfName(id, "jpg");
  }

  /** The metadata of one tile (`TileTexInfo`). */
  datatype TileTexInfo = TileTexInfo(
    tileId: string,
    baseSize: int,
    xsmPrefix: string,
    smPrefix: string,
    hasMediumSize: bool,
    hasLargeSize: bool)
  {
    /** `toString`: the custom-data string the viewer reads back. */
    function ToString(): (r: string)
      ensures |r| >= 26 + |tileId|
      ensures r[..14] == "TYPE TILE, ID " && r[14..14 + |tileId|] == tileId
      ensures r[|r| - 12..] == ", MD " + [Flag(hasMediumSize)] + ", LG " + [Flag(hasLargeSize)]
    {
      var head := "TYPE TILE, ID " + tileId;
      var middle := ", SIZE " + IntToString(baseSize) + ", XSM " + xsmPrefix + ", SM " + smPrefix;
      var tail := ", MD " + [Flag(hasMediumSize)] + ", LG " + [Flag(hasLargeSize)];
      ThreeParts(head, middle, tail);
      assert head[..14] == "TYPE TILE, ID " && head[14..] == tileId;
      head + middle + tail
    }
  }

  /** The first and last parts of a three-part concatenation are where they were put. */
  lemma ThreeParts(a: string, b: string, c: string)
    ensures (a + b + c)[..|a|] == a
    ensures (a + b + c)[|a + b|..] == c
  {
  }

  /** The digit the serialiser writes for a flag. */
  function Flag(b: bool): char {
    if b then '1' else '0'
  }

  /** Reads the MD and LG flags back from the end of a custom-data string. */
  function ReadFlags(s: string): (r: Option<(bool, bool)>)
    ensures r.Some? ==> |s| >= 12 && s[|s| - 12..|s| - 7] == ", MD " && s[|s| - 6..|s| - 1] == ", LG "
  {
    if |s| >= 12 && s[|s| - 12..|s| - 7] == ", MD " && s[|s| - 6..|s| - 1] == ", LG "
       && s[|s| - 7] in "01" && s[|s| - 1] in "01"
    then Some((s[|s| - 7] == '1', s[|s| - 1] == '1'))
    else None
  }

  /** The flags written by `toString` are read back unchanged. */
  lemma FlagsRoundTrip(info: TileTexInfo)
    ensures ReadFlags(info.ToString()) == Some((info.hasMediumSize, info.hasLargeSize))
  {
    var s := info.ToString();
    var tail := ", MD " + [Flag(info.hasMediumSize)] + ", LG " + [Flag(info.hasLargeSize)];
    assert s[|s| - 12..] == tail;
    assert s[|s| - 12..|s| - 7] == tail[..5];
    assert s[|s| - 7] == tail[5];
    assert s[|s| - 6..|s| - 1] == tail[6..11];
    assert s[|s| - 1] == tail[11];
  }

  /** The text of a field: everything up to the first comma, or all of it when there is none. */
  function UpToComma(s: string): (r: string)
    ensures r <= s && ',' !in r
    ensures |r| < |s| ==> s[|r|] == ','
  {
    if s == [] || s[0] == ',' then [] else [s[0]] + UpToComma(s[1..])
  }

  /** A comma-free field followed by a comma reads back as that field. */
  lemma {:induction false} UpToCommaConcat(a: string, b: string)
    requires ',' !in a && b != [] && b[0] == ','
    ensures UpToComma(a + b) == a
  {
    if a != [] {
      assert (a + b)[0] == a[0] && (a + b)[1..] == a[1..] + b;
      UpToCommaConcat(a[1..], b);
    } else {
      assert a + b == b;
    }
  }

  /**
   * One field of a custom-data string: after the key `key`, the text up
   * to the next comma, and what follows it.
   */
  function ParseField(key: string, s: string): (r: Option<(string, string)>)
    ensures r.Some? <==> key <= s
    ensures r.Some? ==> ',' !in r.value.0
    ensures r.Some? && r.value.1 != [] ==> r.value.1[0] == ','
  {
    if !(key <= s) then None
    else
      var rest := s[|key|..];
      var field := UpToComma(rest);
      Some((field, rest[|field|..]))
  }

  /** A parsed field and its remainder are exactly what followed the key. */
  lemma ParseFieldSplits(key: string, s: string)
    requires ParseField(key, s).Some?
    ensures var f := ParseField(key, s).value; s == key + f.0 + f.1
  {
    var rest := s[|key|..];
    var field := UpToComma(rest);
    assert rest == field + rest[|field|..];
    assert s == key + rest;
  }

  /** A key, a comma-free field and a comma-led remainder parse back into the field and the remainder. */
  lemma ParseFieldConcat(key: string, a: string, b: string)
    requires ',' !in a && b != [] && b[0] == ','
    ensures ParseField(key, key + (a + b)) == Some((a, b))
  {
    var s := key + (a + b);
    assert s[|key|..] == a + b;
    UpToCommaConcat(a, b);
    assert (a + b)[|a|..] == b;
  }

  /**
   * Reads a custom-data string back into the tile's fields, in the order
   * `toString` writes them; each text field runs up to the next comma.
   */
  function ParseTileTexInfo(s: string): (r: Option<TileTexInfo>)
    ensures r.Some? ==> ',' !in r.value.tileId && ',' !in r.value.xsmPrefix && ',' !in r.value.smPrefix
  {
    var f1 := ParseField("TYPE TILE, ID ", s);
    if f1.None? then None else
    var f2 := ParseField(", SIZE ", f1.value.1);
    if f2.None? then None else
    var f3 := ParseField(", XSM ", f2.value.1);
    if f3.None? then None else
    var f4 := ParseField(", SM ", f3.value.1);
    if f4.None? then None else
    var flags := ReadFlags(f4.value.1);
    var baseSize := ReadInt(f2.value.0);
    if |f4.value.1| != 12 || flags.None? || baseSize.None? then None
    else Some(TileTexInfo(f1.value.0, baseSize.value, f3.value.0, f4.value.0, flags.value.0, flags.value.1))
  }

  /** The string `toString` writes, field by field. */
  lemma ToStringFields(info: TileTexInfo)
    ensures var tail := ", MD " + [Flag(info.hasMediumSize)] + ", LG " + [Flag(info.hasLargeSize)];
      info.ToString()
      == "TYPE TILE, ID " + (info.tileId + (", SIZE " + (IntToString(info.baseSize)
         + (", XSM " + (info.xsmPrefix + (", SM " + (info.smPrefix + tail)))))))
  {
  }

  /**
   * Every field written by `toString` is read back unchanged, provided the
   * id and the two prefixes hold no comma (the separator of the format).
   */
  lemma ParseRoundTrip(info: TileTexInfo)
    requires ',' !in info.tileId && ',' !in info.xsmPrefix && ',' !in info.smPrefix
    ensures ParseTileTexInfo(info.ToString()) == Some(info)
  {
    ToStringFields(info);
    ParseFields(info.tileId, info.baseSize, info.xsmPrefix, info.smPrefix, info.hasMediumSize, info.hasLargeSize);
  }

  /** The parse of the string assembled field by field. */
  lemma ParseFields(id: string, size: int, xsm: string, sm: string, medium: bool, large: bool)
    requires ',' !in id && ',' !in xsm && ',' !in sm
    ensures var tail := ", MD " + [Flag(medium)] + ", LG " + [Flag(large)];
      ParseTileTexInfo("TYPE TILE, ID " + (id + (", SIZE " + (IntToString(size)
        + (", XSM " + (xsm + (", SM " + (sm + tail))))))))
      == Some(TileTexInfo(id, size, xsm, sm, medium, large))
  {
    var sz := IntToString(size);
    IntRoundTrip(size);
    var tail := ", MD " + [Flag(medium)] + ", LG " + [Flag(large)];
    TailFlags(medium, large);
    var r4 := ", SM " + (sm + tail);
    var r3 := ", XSM " + (xsm + r4);
    var r2 := ", SIZE " + (sz + r3);
    ParseFieldConcat("TYPE TILE, ID ", id, r2);
    ParseFieldConcat(", SIZE ", sz, r3);
    ParseFieldConcat(", XSM ", xsm, r4);
    ParseFieldConcat(", SM ", sm, tail);
  }

  /** The two flag fields are twelve characters and read back as the flags. */
  lemma TailFlags(medium: bool, large: bool)
    ensures var tail := ", MD " + [Flag(medium)] + ", LG " + [Flag(large)];
      |tail| == 12 && ReadFlags(tail) == Some((medium, large))
  {
    var tail := ", MD " + [Flag(medium)] + ", LG " + [Flag(large)];
    assert tail[..5] == ", MD " && tail[6..11] == ", LG ";
  }

  /** The pixel widths of a tile's four JPEG tiers. */
  datatype TierWidths = TierWidths(xsm: int, sm: int, base: int, large: int)

  /** The width of the tier a prefix names. */
  function WidthOf(prefix: string, w: TierWidths): int {
    if prefix == "xsm" then w.xsm else w.sm
  }

  /**
   * The derivation for one tile (merge-mars-terrain.py:136-154): the
   * prefixes are swapped when the `_sm` image is narrower than the `_xsm`
   * one, there is no medium tier when the base image is as narrow as one of
   * the small ones, and there is a large tier when it is wider than the base.
   */
  function Derive(baseFilename: string, w: TierWidths): (info: TileTexInfo)
    ensures info.tileId == TileId(baseFilename) && info.baseSize == w.base
    ensures WidthOf(info.xsmPrefix, w) <= WidthOf(info.smPrefix, w)
    ensures info.hasMediumSize <==> w.base != w.sm && w.base != w.xsm
    ensures info.hasLargeSize <==> w.large > w.base
  {
    var swap := w.sm < w.xsm;
    TileTexInfo(
      TileId(baseFilename),
      w.base,
      if swap then "sm" else "xsm",
      if swap then "xsm" else "sm",
      !(w.base == w.sm || w.base == w.xsm),
      w.large > w.base)
  }

  /**
   * A tile whose base image is as narrow as its `_sm` image but whose large
   * image is wider gets a large tier without a medium one.
   */
  lemma LargeWithoutMedium(baseFilename: string)
    ensures var info := Derive(baseFilename, TierWidths(1, 2, 2, 4));
      !info.hasMediumSize && info.hasLargeSize
  {
  }

  /** The two prefixes are always "xsm" and "sm", in one order or the other. */
  lemma PrefixesArePermutation(baseFilename: string, w: TierWidths)
    ensures var info := Derive(baseFilename, w);
      multiset{info.xsmPrefix, info.smPrefix} == multiset{"xsm", "sm"}
      && (info.xsmPrefix == "sm" <==> w.sm < w.xsm)
  {
  }

  /** Reading the flags back from a derived tile's string gives the derived flags. */
  lemma DerivedFlagsReadBack(baseFilename: string, w: TierWidths)
    ensures ReadFlags(Derive(baseFilename, w).ToString())
         == Some((w.base != w.sm && w.base != w.xsm, w.large > w.base))
  {
    FlagsRoundTrip(Derive(baseFilename, w));
  }
}
