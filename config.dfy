/**
 * The resolution and codec catalog of camera.py's Config class: the table of named
 * resolutions built from the list of {width, height} entries, the fixed table of
 * video types and their FourCC tags, and the lookups over both.
 */
module Config {
  import opened Wrappers
  import opened Seqs

  /** One entry of the resolutions list: a width and a height in pixels. */
  datatype Entry = Entry(width: nat, height: nat)

  /** A (width, height) pair, as the dict stores it. */
  type Dims = (nat, nat)

  predicate IsDigit(c: char) { '0' <= c <= '9' }

  predicate AllDigits(s: string) { forall i :: 0 <= i < |s| ==> IsDigit(s[i]) }

  function Digit(d: nat): (c: char)
    requires d < 10
    ensures IsDigit(c) && c as int - '0' as int == d
  {
    ('0' as int + d) as char
  }

  /** Python's str() of a non-negative int: decimal digits without leading zeros. */
  function Decimal(n: nat): (s: string)
    ensures |s| > 0 && AllDigits(s)
    ensures s[0] == '0' ==> n == 0 && s == "0"
    decreases n
  {
    if n < 10 then [Digit(n)] else Decimal(n / 10) + [Digit(n % 10)]
  }

  /** The value of a string of decimal digits (Python's int() of such a string). */
  function ParseDecimal(s: string): (n: nat)
    requires AllDigits(s)
  {
    if s == [] then 0 else 10 * ParseDecimal(s[..|s| - 1]) + (s[|s| - 1] as int - '0' as int)
  }

  /** Reading back the decimal form of a number gives the number. */
  lemma {:induction false} ParseDecimalOfDecimal(n: nat)
    ensures ParseDecimal(Decimal(n)) == n
    decreases n
  {
    if n >= 10 {
      var s := Decimal(n);
      assert s[..|s| - 1] == Decimal(n / 10);
      ParseDecimalOfDecimal(n / 10);
    }
  }

  /** The key of a resolution: str(width) + 'x' + str(height). */
  function DimensionName(width: nat, height: nat): (name: string)
  {
    Decimal(width) + "x" + Decimal(height)
  }

  function NameOf(e: Entry): (name: string)
  {
    DimensionName(e.width, e.height)
  }

  /** The inverse of DimensionName: split at the first 'x' and read both halves. */
  function ParseDimensionName(name: string): (r: Option<Dims>)
  {
    match IndexOf(name, 'x')
    case None => None
    case Some(k) =>
      var ws, hs := name[..k], name[k + 1..];
      if ws != [] && hs != [] && AllDigits(ws) && AllDigits(hs)
      then Some((ParseDecimal(ws), ParseDecimal(hs)))
      else None
  }

  /** A resolution name reads back as the width and height it was made from. */
  lemma DimensionNameRoundTrip(width: nat, height: nat)
    ensures ParseDimensionName(DimensionName(width, height)) == Some((width, height))
  {
    var name := DimensionName(width, height);
    var dw, dh := Decimal(width), Decimal(height);
    assert name[|dw|] == 'x';
    forall i | 0 <= i < |dw| ensures name[i] != 'x' {
      assert name[i] == dw[i];
    }
    IndexOfIs(name, 'x', |dw|);
    assert name[..|dw|] == dw;
    assert name[|dw| + 1..] == dh;
    ParseDecimalOfDecimal(width);
    ParseDecimalOfDecimal(height);
  }

  /** Different resolutions get different names. */
  lemma DimensionNameInjective(w1: nat, h1: nat, w2: nat, h2: nat)
    ensures DimensionName(w1, h1) == DimensionName(w2, h2) ==> w1 == w2 && h1 == h2
  {
    DimensionNameRoundTrip(w1, h1);
    DimensionNameRoundTrip(w2, h2);
  }

  /** A resolution name holds only digits and one 'x': no '_' and no '.'. */
  lemma DimensionNameCharacters(width: nat, height: nat)
    ensures '_' !in DimensionName(width, height) && '.' !in DimensionName(width, height)
  {
    var name := DimensionName(width, height);
    var dw, dh := Decimal(width), Decimal(height);
    forall i | 0 <= i < |name| ensures name[i] != '_' && name[i] != '.' {
      if i < |dw| {
        assert name[i] == dw[i];
      } else if i > |dw| {
        assert name[i] == dh[i - |dw| - 1];
      }
    }
  }

  /**
   * STD_DIMENSIONS, a Python dict: the keys in insertion order and the map from key to
   * (width, height).
   */
  datatype Catalog = Catalog(names: seq<string>, dims: map<string, Dims>)

  /**
   * What a catalog built from entries always looks like: the names are distinct, they are
   * exactly the keys, and each key is the name of the pair it maps to.
   */
  predicate WellFormed(c: Catalog)
  {
    && (forall i, j :: 0 <= i < j < |c.names| ==> c.names[i] != c.names[j])
    && (forall k :: k in c.dims ==> k in c.names)
    && NamesAreKeys(c)
    && (forall k :: k in c.dims ==> k == DimensionName(c.dims[k].0, c.dims[k].1))
  }

  /** Every listed name has an entry: what a selection by position needs. */
  predicate NamesAreKeys(c: Catalog)
  {
    forall k :: k in c.names ==> k in c.dims
  }

  /**
   * STD_DIMENSIONS[str(w)+'x'+str(h)] = (w, h): a new key goes to the end, an existing key
   * keeps its position and gets the new value.
   */
  function Insert(c: Catalog, e: Entry): (r: Catalog)
  {
    var k := NameOf(e);
    Catalog(if k in c.dims then c.names else c.names + [k], c.dims[k := (e.width, e.height)])
  }

  /** The catalog after inserting the entries one after the other, from the empty dict. */
  function CatalogOf(entries: seq<Entry>): (c: Catalog)
  {
    if entries == [] then Catalog([], map[])
    else Insert(CatalogOf(entries[..|entries| - 1]), entries[|entries| - 1])
  }

  /** The names of the entries, in list order, duplicates included. */
  function EntryNames(entries: seq<Entry>): (names: seq<string>)
    ensures |names| == |entries|
    ensures forall i :: 0 <= i < |entries| ==> names[i] == NameOf(entries[i])
  {
    if entries == [] then []
    else EntryNames(entries[..|entries| - 1]) + [NameOf(entries[|entries| - 1])]
  }

  /** Whether x first appears in s before y does. */
  predicate Before(s: seq<string>, x: string, y: string)
  {
    match (IndexOf(s, x), IndexOf(s, y))
    case (Some(a), Some(b)) => a < b
    case _ => false
  }

  /** Inserting an entry keeps a catalog well-formed. */
  lemma InsertWellFormed(c: Catalog, e: Entry)
    requires WellFormed(c)
    ensures WellFormed(Insert(c, e))
  {
    var k := NameOf(e);
    var c' := Insert(c, e);
    if k !in c.dims {
      assert k !in c.names;
      forall i, j | 0 <= i < j < |c'.names| ensures c'.names[i] != c'.names[j] {
        if j == |c.names| {
          assert c'.names[i] == c.names[i];
          assert c.names[i] in c.names;
        }
      }
    }
  }

  /** A built catalog is well-formed. */
  lemma {:induction false} CatalogWellFormed(entries: seq<Entry>)
    ensures WellFormed(CatalogOf(entries))
  {
    if entries != [] {
      CatalogWellFormed(entries[..|entries| - 1]);
      InsertWellFormed(CatalogOf(entries[..|entries| - 1]), entries[|entries| - 1]);
    }
  }

  /** The keys of a built catalog are exactly the names of its entries. */
  lemma {:induction false} CatalogKeys(entries: seq<Entry>)
    ensures forall k :: k in CatalogOf(entries).dims <==> k in EntryNames(entries)
    ensures forall k :: k in CatalogOf(entries).names <==> k in EntryNames(entries)
  {
    CatalogWellFormed(entries);
    if entries != [] {
      CatalogKeys(entries[..|entries| - 1]);
    }
  }

  /** Looking up the name of any entry gives that entry's width and height. */
  lemma CatalogLookup(entries: seq<Entry>, i: nat)
    requires i < |entries|
    ensures NameOf(entries[i]) in CatalogOf(entries).dims
    ensures CatalogOf(entries).dims[NameOf(entries[i])] == (entries[i].width, entries[i].height)
  {
    var c := CatalogOf(entries);
    var k := NameOf(entries[i]);
    CatalogKeys(entries);
    CatalogWellFormed(entries);
    assert EntryNames(entries)[i] == k;
    DimensionNameInjective(c.dims[k].0, c.dims[k].1, entries[i].width, entries[i].height);
  }

  /** The names are listed in the order in which they first appear among the entries. */
  lemma {:induction false} CatalogFirstAppearance(entries: seq<Entry>)
    ensures forall i, j :: 0 <= i < j < |CatalogOf(entries).names| ==>
      Before(EntryNames(entries), CatalogOf(entries).names[i], CatalogOf(entries).names[j])
  {
    if entries != [] {
      var init, e := entries[..|entries| - 1], entries[|entries| - 1];
      var c, c' := CatalogOf(init), CatalogOf(entries);
      var s, s' := EntryNames(init), EntryNames(entries);
      var k := NameOf(e);
      assert s' == s + [k];
      CatalogFirstAppearance(init);
      CatalogKeys(init);
      forall x | x in c.names ensures IndexOf(s', x) == IndexOf(s, x) {
        IndexOfAppend(s, k, x);
      }
      forall i, j | 0 <= i < j < |c'.names| ensures Before(s', c'.names[i], c'.names[j]) {
        assert c'.names[i] == c.names[i] && c.names[i] in c.names;
        if j < |c.names| {
          assert c'.names[j] == c.names[j] && c.names[j] in c.names;
          assert Before(s, c.names[i], c.names[j]);
        } else {
          assert k !in c.dims && c'.names[j] == k;
          IndexOfAppend(s, k, k);
        }
      }
    }
  }

  /** Adding entries never reorders or removes a name: the old list is a prefix of the new. */
  lemma {:induction false} CatalogNamesGrow(entries: seq<Entry>, more: seq<Entry>)
    ensures CatalogOf(entries).names <= CatalogOf(entries + more).names
    decreases |more|
  {
    if more != [] {
      var init := more[..|more| - 1];
      assert (entries + more)[..|entries + more| - 1] == entries + init;
      assert CatalogOf(entries + more) == Insert(CatalogOf(entries + init), more[|more| - 1]);
      CatalogNamesGrow(entries, init);
    } else {
      assert entries + more == entries;
    }
  }

  /** Entries whose names are already in the catalog change nothing: no new name, no new value. */
  lemma {:induction false} DuplicatesChangeNothing(entries: seq<Entry>, more: seq<Entry>)
    requires forall i :: 0 <= i < |more| ==> NameOf(more[i]) in CatalogOf(entries).dims
    ensures CatalogOf(entries + more) == CatalogOf(entries)
    decreases |more|
  {
    if more != [] {
      var init, e := more[..|more| - 1], more[|more| - 1];
      assert (entries + more)[..|entries + more| - 1] == entries + init;
      assert CatalogOf(entries + more) == Insert(CatalogOf(entries + init), e);
      DuplicatesChangeNothing(entries, init);
      var c := CatalogOf(entries);
      var k := NameOf(e);
      CatalogWellFormed(entries);
      DimensionNameInjective(c.dims[k].0, c.dims[k].1, e.width, e.height);
      assert c.dims[k := (e.width, e.height)] == c.dims;
    } else {
      assert entries + more == entries;
    }
  }

  /** The loop at class-definition time that fills STD_DIMENSIONS from the entries. */
  method BuildCatalog(entries: seq<Entry>) returns (c: Catalog)
    ensures c == CatalogOf(entries)
    ensures WellFormed(c)
    ensures forall k :: k in c.names <==> k in EntryNames(entries)
  {
    var names: seq<string> := [];
    var dims: map<string, Dims> := map[];
    var i := 0;
    while i < |entries|
      invariant 0 <= i <= |entries|
      invariant Catalog(names, dims) == CatalogOf(entries[..i])
    {
      var e := entries[i];
      var key := DimensionName(e.width, e.height);
      if key !in dims {
        names := names + [key];
      }
      dims := dims[key := (e.width, e.height)];
      assert entries[..i + 1][..i] == entries[..i];
      i := i + 1;
    }
    assert entries[..i] == entries;
    c := Catalog(names, dims);
    CatalogWellFormed(entries);
    CatalogKeys(entries);
  }

  /** cap.set property ids of OpenCV. */
  const CapPropFrameWidth: int := 3
  const CapPropFrameHeight: int := 4

  /** One cap.set(property, value) call on the capture device. */
  datatype DeviceCommand = SetProperty(property: int, value: int)

  /** change_res: set the width, then the height. */
  function ChangeRes(width: nat, height: nat): (commands: seq<DeviceCommand>)
  {
    [SetProperty(CapPropFrameWidth, width), SetProperty(CapPropFrameHeight, height)]
  }

  /** The result of get_dimension: the pair it returns and the device calls it made. */
  datatype Applied = Applied(size: Dims, commands: seq<DeviceCommand>)

  /** get_dimension has no fallback: for an unknown name width is never bound. */
  datatype LookupError = UnboundLocal

  /** get_dimension(cap, res). */
  function GetDimension(c: Catalog, res: string): (r: Result<Applied, LookupError>)
    ensures r.Success? <==> res in c.dims
  {
    if res in c.dims then
      var (w, h) := c.dims[res];
      Success(Applied((w, h), ChangeRes(w, h)))
    else
      Failure(UnboundLocal)
  }

  /**
   * Looking up a resolution in a built catalog succeeds exactly for the names of entries; it
   * then returns that entry's pair, applies exactly that width and then that height to the
   * device, and the name is the one the pair gives.
   */
  lemma GetDimensionOfCatalog(entries: seq<Entry>, res: string)
    ensures GetDimension(CatalogOf(entries), res).Success? <==> res in EntryNames(entries)
    ensures forall i :: 0 <= i < |entries| && NameOf(entries[i]) == res ==>
      GetDimension(CatalogOf(entries), res) == Success(Applied((entries[i].width, entries[i].height),
        [SetProperty(CapPropFrameWidth, entries[i].width), SetProperty(CapPropFrameHeight, entries[i].height)]))
    ensures GetDimension(CatalogOf(entries), res).Success? ==>
      var size := GetDimension(CatalogOf(entries), res).value.size;
      res == DimensionName(size.0, size.1)
  {
    CatalogKeys(entries);
    CatalogWellFormed(entries);
    forall i | 0 <= i < |entries| && NameOf(entries[i]) == res
      ensures CatalogOf(entries).dims[res] == (entries[i].width, entries[i].height)
    {
      CatalogLookup(entries, i);
    }
  }

  /** cv2.VideoWriter_fourcc: the four character codes packed little-endian into 32 bits. */
  function FourCC(code: string): (n: nat)
    requires |code| == 4
    ensures n < 0x1_0000_0000
  {
    (code[0] as int % 0x100) + 0x100 * ((code[1] as int % 0x100) + 0x100 *
      ((code[2] as int % 0x100) + 0x100 * (code[3] as int % 0x100)))
  }

  /** The four characters a FourCC tag stands for. */
  function FourCCCode(n: nat): (s: string)
    ensures |s| == 4
  {
    [(n % 0x100) as char, (n / 0x100 % 0x100) as char,
     (n / 0x1_0000 % 0x100) as char, (n / 0x100_0000 % 0x100) as char]
  }

  lemma ByteShift(a: int, m: nat)
    requires 0 <= a < 0x100
    ensures (a + 0x100 * m) % 0x100 == a && (a + 0x100 * m) / 0x100 == m
  {
  }

  /** A code of four 8-bit characters is recovered from its FourCC tag. */
  lemma FourCCRoundTrip(code: string)
    requires |code| == 4 && forall i :: 0 <= i < 4 ==> code[i] as int < 0x100
    ensures FourCCCode(FourCC(code)) == code
  {
    var a, b, c, d := code[0] as int, code[1] as int, code[2] as int, code[3] as int;
    var n := FourCC(code);
    var n1 := b + 0x100 * (c + 0x100 * d);
    var n2 := c + 0x100 * d;
    assert n == a + 0x100 * n1;
    ByteShift(a, n1);
    ByteShift(b, n2);
    ByteShift(c, d);
    assert n / 0x1_0000 == n1 / 0x100;
    assert n / 0x100_0000 == n2 / 0x100;
  }

  /** VIDEO_TYPE's keys, in dict order. */
  const VideoTypeNames: seq<string> := ["avi", "mp4"]

  /** VIDEO_TYPE: each video type and the FourCC tag of its codec. */
  const VideoTypeTags: map<string, nat> := map["avi" := FourCC("DIVX"), "mp4" := FourCC("H264")]

  /** get_video_type: the table's tag, or the tag of 'avi' for any other name. */
  function GetVideoType(name: string): (tag: nat)
    ensures name in VideoTypeTags ==> tag == VideoTypeTags[name]
    ensures name !in VideoTypeTags ==> tag == VideoTypeTags["avi"]
  {
    if name in VideoTypeTags then VideoTypeTags[name] else VideoTypeTags["avi"]
  }

  /** get_all_video_types lists exactly the table's keys, each once. */
  lemma VideoTypeNamesAreKeys()
    ensures forall k :: k in VideoTypeTags <==> k in VideoTypeNames
    ensures |VideoTypeNames| == 2 && VideoTypeNames[0] != VideoTypeNames[1]
    ensures forall k :: k in VideoTypeNames ==> '.' !in k
  {
    assert "avi"[1] == 'v' && '.' !in "avi";
    assert "mp4"[1] == 'p' && '.' !in "mp4";
  }

  /** The codec chosen for a video type: H264 for 'mp4', DIVX for 'avi' and for every other name. */
  lemma GetVideoTypeCodec(name: string)
    ensures FourCCCode(GetVideoType(name)) == if name == "mp4" then "H264" else "DIVX"
  {
    FourCCRoundTrip("DIVX");
    FourCCRoundTrip("H264");
  }

  /** get_all_dimensions: the catalog's keys in insertion order. */
  function GetAllDimensions(c: Catalog): (names: seq<string>)
    ensures WellFormed(c) ==> forall k :: k in names <==> k in c.dims
    ensures WellFormed(c) ==> forall i, j :: 0 <= i < j < |names| ==> names[i] != names[j]
  {
    c.names
  }
}
