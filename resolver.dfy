// The API resolver's pure core: 32-bit FNV-1a over C strings and its
// ASCII case-folding variant, the conversion of a loader entry's UTF-16
// base name into the 256-byte narrow buffer that `find_module` hashes, the
// walk over the loader's module list, and the search of a PE image's export
// tables. The loader list and the image are given as values.
module Resolver {
  import opened W = Word
  import opened Options

  /** A `char`: signed and 8 bits wide on the Windows targets. */
  type CChar = c: int | -128 <= c < 128

  /** A `wchar_t`/`WCHAR`/`USHORT`: 16 bits, unsigned. */
  type U16 = u: int | 0 <= u < 0x1_0000

  // ---- C strings --------------------------------------------------------------

  /** The index of the terminating NUL: where a `while (*str)` loop stops. */
  function NulIndex(buf: seq<CChar>): (k: nat)
    requires 0 in buf
    ensures k < |buf| && buf[k] == 0 && 0 !in buf[..k]
  {
    if buf[0] == 0 then 0
    else
      var k := NulIndex(buf[1..]);
      assert buf[..k + 1] == [buf[0]] + buf[1..][..k];
      k + 1
  }

  /** The text a NUL-terminated buffer holds. */
  function CStr(buf: seq<CChar>): (s: seq<CChar>)
    requires 0 in buf
    ensures 0 !in s && |s| < |buf| && buf[..|s|] == s
  {
    buf[..NulIndex(buf)]
  }

  /** A text followed by its NUL reads back as the text. */
  lemma CStrOfText(s: seq<CChar>)
    requires 0 !in s
    ensures 0 in s + [0] && CStr(s + [0]) == s
  {
    var b := s + [0];
    assert b[|s|] == 0;
    assert b[..|s|] == s;
    NulIndexAt(b, |s|);
  }

  // ---- FNV-1a ---------------------------------------------------------------

  const Basis: Word := 0x811c_9dc5
  const Prime: Word := 0x0100_0193

  /**
   * One FNV-1a step. `static_cast<uint32_t>` of a signed char sign-extends,
   * so characters from 0x80 up contribute 0xFFFFFF80..0xFFFFFFFF.
   */
  function Step(h: Word, c: CChar): Word
  {
    Mul(BitXor(h, Wrap(c)), Prime)
  }

  /** `hash(s)`: the FNV-1a fold of the characters of s, first to last. */
  function Hash(s: seq<CChar>): Word
  {
    if |s| == 0 then Basis else Step(Hash(s[..|s| - 1]), s[|s| - 1])
  }

  /** The empty string hashes to the offset basis. */
  lemma HashEmpty()
    ensures Hash([]) == 0x811c_9dc5
  {
  }

  /** Hashing continues from the hash of a prefix. */
  lemma {:induction false} HashAppend(s: seq<CChar>, c: CChar)
    ensures Hash(s + [c]) == Step(Hash(s), c)
  {
    assert (s + [c])[..|s|] == s;
  }

  /** The fold of `c >= 'A' && c <= 'Z'` into 'a'..'z'; nothing else changes. */
  function LowerChar(c: CChar): CChar
  {
    if 65 <= c <= 90 then c + 32 else c
  }

  function Lower(s: seq<CChar>): (t: seq<CChar>)
    ensures |t| == |s| && forall i :: 0 <= i < |s| ==> t[i] == LowerChar(s[i])
  {
    seq(|s|, i requires 0 <= i < |s| => LowerChar(s[i]))
  }

  /** Folding never produces a NUL and folding twice is folding once. */
  lemma LowerProperties(s: seq<CChar>)
    ensures (0 in Lower(s)) <==> (0 in s)
    ensures Lower(Lower(s)) == Lower(s)
  {
    var t := Lower(s);
    if 0 in t {
      var i :| 0 <= i < |t| && t[i] == 0;
      assert s[i] == 0;
    }
    if 0 in s {
      var i :| 0 <= i < |s| && s[i] == 0;
      assert t[i] == 0;
    }
  }

  /** `hash_string_lower(s)`: FNV-1a where each character is folded before it is mixed in. */
  function HashLower(s: seq<CChar>): Word
  {
    if |s| == 0 then Basis else Step(HashLower(s[..|s| - 1]), LowerChar(s[|s| - 1]))
  }

  lemma {:induction false} HashLowerAppend(s: seq<CChar>, c: CChar)
    ensures HashLower(s + [c]) == Step(HashLower(s), LowerChar(c))
  {
    assert (s + [c])[..|s|] == s;
  }

  /** hash_string_lower(s) == hash(asciiLower(s)). */
  lemma {:induction false} HashLowerIsHashOfLower(s: seq<CChar>)
    ensures HashLower(s) == Hash(Lower(s))
  {
    if |s| > 0 {
      var p := s[..|s| - 1];
      HashLowerIsHashOfLower(p);
      assert Lower(s)[..|s| - 1] == Lower(p);
    }
  }

  /** Names that differ only in the case of ASCII letters hash alike under folding. */
  lemma HashLowerIgnoresCase(a: seq<CChar>, b: seq<CChar>)
    requires Lower(a) == Lower(b)
    ensures HashLower(a) == HashLower(b)
  {
    HashLowerIsHashOfLower(a);
    HashLowerIsHashOfLower(b);
  }

  /** `hash(str)`: the while loop over a NUL-terminated buffer. */
  method HashText(str: seq<CChar>) returns (hash: Word)
    requires 0 in str
    ensures hash == Hash(CStr(str))
  {
    var n := NulIndex(str);
    hash := Basis;
    var i := 0;
    while str[i] != 0
      invariant 0 <= i <= n
      invariant hash == Hash(str[..i])
      decreases n - i
    {
      assert str[i] in str[..n];
      hash := BitXor(hash, Wrap(str[i]));
      hash := Mul(hash, Prime);
      HashAppend(str[..i], str[i]);
      assert str[..i + 1] == str[..i] + [str[i]];
      i := i + 1;
    }
  }

  /** `hash_string_lower(str)`: the same loop, folding each character first. */
  method HashStringLower(str: seq<CChar>) returns (hash: Word)
    requires 0 in str
    ensures hash == HashLower(CStr(str))
  {
    var n := NulIndex(str);
    hash := Basis;
    var i := 0;
    while str[i] != 0
      invariant 0 <= i <= n
      invariant hash == HashLower(str[..i])
      decreases n - i
    {
      assert str[i] in str[..n];
      var c := str[i];
      if c >= 65 && c <= 90 {
        c := c - 65 + 97;
      }
      assert c == LowerChar(str[i]);
      hash := BitXor(hash, Wrap(c));
      hash := Mul(hash, Prime);
      HashLowerAppend(str[..i], str[i]);
      assert str[..i + 1] == str[..i] + [str[i]];
      i := i + 1;
    }
  }

  // ---- Narrowing a loader entry's base name -----------------------------------

  /** A `UNICODE_STRING`: a length in bytes and a buffer that may be null. */
  datatype UnicodeString = UnicodeString(length: U16, buffer: Option<seq<U16>>)

  /** The buffer holds at least as many units as the length announces. */
  predicate WellFormed(u: UnicodeString)
  {
    u.buffer.Some? ==> u.length / 2 <= |u.buffer.value|
  }

  /** The number of UTF-16 units converted: `min(Length / sizeof(WCHAR), 255)`. */
  function Units(length: U16): (n: nat)
    ensures n <= 255 && n <= length / 2
    ensures length / 2 <= 255 ==> n == length / 2
  {
    var len := length / 2;
    if len >= 256 then 255 else len
  }

  /** A unit after folding `L'A'..L'Z'` only. */
  function WideLower(wc: U16): U16
  {
    if 65 <= wc <= 90 then wc - 65 + 97 else wc
  }

  /** `static_cast<char>` of a 16-bit unit: its low byte, read as signed. */
  function Truncate(wc: U16): CChar
  {
    var b := wc % 256;
    if b >= 128 then b - 256 else b
  }

  /** The 256-byte `narrow_name` buffer after the conversion loop; it always ends in a NUL. */
  function Narrowed(buffer: seq<U16>, length: U16): (n: seq<CChar>)
    requires length / 2 <= |buffer|
    ensures |n| == 256 && n[255] == 0 && 0 in n
  {
    seq(256, i requires 0 <= i < 256 => if i < Units(length) then Truncate(WideLower(buffer[i])) else 0)
  }

  /** A NUL with none before it is the one a C string loop stops at. */
  lemma NulIndexAt(buf: seq<CChar>, k: nat)
    requires k < |buf| && buf[k] == 0 && 0 !in buf[..k]
    ensures NulIndex(buf) == k
  {
    var j := NulIndex(buf);
  }

  /**
   * The hash reads at most the converted units; a unit whose low byte is
   * zero ends the name early.
   */
  lemma NarrowedTerminated(buffer: seq<U16>, length: U16)
    requires length / 2 <= |buffer|
    ensures NulIndex(Narrowed(buffer, length)) <= Units(length)
  {
    var n := Narrowed(buffer, length);
    assert n[Units(length)] == 0;
  }

  /** Units read as 7-bit ASCII characters. */
  function AsChars(units: seq<U16>): (s: seq<CChar>)
    requires forall i :: 0 <= i < |units| ==> units[i] < 128
    ensures |s| == |units| && forall i :: 0 <= i < |units| ==> s[i] == units[i]
  {
    seq(|units|, i requires 0 <= i < |units| => units[i] as CChar)
  }

  predicate AsciiName(units: seq<U16>)
  {
    forall i :: 0 <= i < |units| ==> 0 < units[i] < 128
  }

  /** For a NUL-free ASCII name the narrow text is the folded name itself. */
  lemma NarrowAscii(buffer: seq<U16>, length: U16)
    requires length / 2 <= |buffer| && AsciiName(buffer[..Units(length)])
    ensures CStr(Narrowed(buffer, length)) == Lower(AsChars(buffer[..Units(length)]))
  {
    var n := Narrowed(buffer, length);
    var u := Units(length);
    var w := AsChars(buffer[..u]);
    assert n[..u] == Lower(w) by {
      forall i | 0 <= i < u
        ensures n[i] == Lower(w)[i]
      {
        assert buffer[..u][i] == buffer[i];
      }
    }
    assert 0 !in w by {
      forall i | 0 <= i < u
        ensures w[i] != 0
      {
        assert buffer[..u][i] > 0;
      }
    }
    LowerProperties(w);
    NulIndexAt(n, u);
  }

  /** `narrow_name` filled by the for loop of `find_module`. */
  method NarrowName(name: UnicodeString) returns (narrow: array<CChar>)
    requires name.buffer.Some? && WellFormed(name)
    ensures fresh(narrow) && narrow[..] == Narrowed(name.buffer.value, name.length)
  {
    narrow := new CChar[256](_ => 0);
    var len := name.length / 2;
    if len >= 256 {
      len := 255;
    }
    var buffer := name.buffer.value;
    for i := 0 to len
      invariant forall k :: 0 <= k < i ==> narrow[k] == Truncate(WideLower(buffer[k]))
      invariant forall k :: i <= k < 256 ==> narrow[k] == 0
    {
      var wc := buffer[i];
      if wc >= 65 && wc <= 90 {
        wc := wc - 65 + 97;
      }
      narrow[i] := Truncate(wc);
    }
  }

  // ---- The module list --------------------------------------------------------

  /** An `LDR_DATA_TABLE_ENTRY`: its image base (0 is null) and base name. */
  datatype LoaderEntry = LoaderEntry(dllBase: nat, baseDllName: UnicodeString)

  /**
   * Whether `find_module` accepts a well-formed entry for a hash: the name
   * has a buffer and a nonzero length and its narrow text hashes to it.
   */
  predicate Matches(e: LoaderEntry, nameHash: Word)
  {
    var n := e.baseDllName;
    WellFormed(n) && n.buffer.Some? && n.length > 0 &&
    Hash(CStr(Narrowed(n.buffer.value, n.length))) == nameHash
  }

  /** One iteration of the walk in `find_module`: narrow the name and compare hashes. */
  method CheckEntry(entry: LoaderEntry, nameHash: Word) returns (found: bool)
    requires WellFormed(entry.baseDllName)
    ensures found == Matches(entry, nameHash)
  {
    var name := entry.baseDllName;
    found := false;
    if name.buffer.Some? && name.length > 0 {
      var narrow := NarrowName(name);
      var h := HashText(narrow[..]);
      found := h == nameHash;
    }
  }

  predicate AllWellFormed(entries: seq<LoaderEntry>)
  {
    forall i :: 0 <= i < |entries| ==> WellFormed(entries[i].baseDllName)
  }

  /** The first entry, in load order, that matches the hash. */
  function FirstModule(entries: seq<LoaderEntry>, nameHash: Word): (r: Option<nat>)
    ensures r.None? <==> forall k :: 0 <= k < |entries| ==> !Matches(entries[k], nameHash)
    ensures r.Some? ==> r.value < |entries| && Matches(entries[r.value], nameHash)
    ensures r.Some? ==> forall k :: 0 <= k < r.value ==> !Matches(entries[k], nameHash)
  {
    if |entries| == 0 then None
    else if Matches(entries[0], nameHash) then Some(0)
    else
      var tail := entries[1..];
      assert forall k :: 0 <= k < |tail| ==> tail[k] == entries[k + 1];
      match FirstModule(tail, nameHash)
      case None => None
      case Some(i) => Some(i + 1)
  }

  /** What `find_module(hash)` comes to: no loader, not loaded, or an image base. */
  datatype ModuleLookup = NoLoader | NotLoaded | Loaded(base: nat)

  /** The HMODULE `find_module` returns; every failure is the null handle. */
  function Handle(r: ModuleLookup): nat
  {
    if r.Loaded? then r.base else 0
  }

  /**
   * `find_module(name_hash)`: the loader list is None when the PEB or its
   * `Ldr` is null, otherwise the entries reached from the list head before
   * the walk comes back to it or meets a null link.
   */
  method FindModule(loader: Option<seq<LoaderEntry>>, nameHash: Word) returns (r: ModuleLookup)
    requires loader.Some? ==> AllWellFormed(loader.value)
    ensures loader.None? ==> r == NoLoader
    ensures loader.Some? ==> match FirstModule(loader.value, nameHash)
      case None => r == NotLoaded
      case Some(i) => r == Loaded(loader.value[i].dllBase)
  {
    if loader.None? {
      return NoLoader;
    }
    var entries := loader.value;
    var current := 0;
    while current < |entries|
      invariant 0 <= current <= |entries|
      invariant forall k :: 0 <= k < current ==> !Matches(entries[k], nameHash)
    {
      var entry := entries[current];
      var found := CheckEntry(entry, nameHash);
      if found {
        return Loaded(entry.dllBase);
      }
      current := current + 1;
    }
    return NotLoaded;
  }

  /**
   * `find_module(name)`: the folded hash of the name, then the list walk;
   * `loadLibrary` stands for what the `LoadLibraryA` fallback returns.
   */
  method FindModuleByName(loader: Option<seq<LoaderEntry>>, name: seq<CChar>, loadLibrary: nat)
    returns (handle: nat)
    requires 0 in name && (loader.Some? ==> AllWellFormed(loader.value))
    ensures var r := if loader.None? then None else FirstModule(loader.value, HashLower(CStr(name)));
      handle == if r.Some? && loader.value[r.value].dllBase != 0 then loader.value[r.value].dllBase else loadLibrary
  {
    var nameHash := HashStringLower(name);
    var r := FindModule(loader, nameHash);
    handle := Handle(r);
    if handle == 0 {
      handle := loadLibrary;
    }
  }

  /**
   * A lookup by an ASCII name finds an entry whose base name is the same
   * name up to the case of its letters, when the base name fits in the
   * 255 units the conversion keeps.
   */
  lemma AsciiLookupMatches(e: LoaderEntry, query: seq<CChar>)
    requires WellFormed(e.baseDllName) && e.baseDllName.buffer.Some? && e.baseDllName.length > 0
    requires var n := e.baseDllName; var u := n.buffer.value[..Units(n.length)];
      AsciiName(u) && Lower(query) == Lower(AsChars(u))
    ensures Matches(e, HashLower(query))
  {
    var n := e.baseDllName;
    var u := n.buffer.value[..Units(n.length)];
    NarrowAscii(n.buffer.value, n.length);
    LowerProperties(AsChars(u));
    HashLowerIsHashOfLower(query);
  }

  // ---- The export tables ------------------------------------------------------

  /**
   * The parts of a mapped PE image that `find_export` reads: the two
   * signature checks, the export data directory and the three export
   * tables, with each name already read up to its NUL.
   */
  datatype Image = Image(
    dosSignatureValid: bool,
    ntSignatureValid: bool,
    exportRva: Word,
    exportSize: Word,
    names: seq<seq<CChar>>,
    ordinals: seq<U16>,
    functions: seq<Word>)

  /**
   * Every name is a C string's text, every name has an ordinal and every
   * ordinal of a name indexes the function table.
   */
  predicate Tables(img: Image)
  {
    (forall i :: 0 <= i < |img.names| ==> 0 !in img.names[i]) &&
    |img.names| <= |img.ordinals| &&
    forall i :: 0 <= i < |img.names| ==> img.ordinals[i] < |img.functions|
  }

  /** The first name index whose hash matches. */
  function FirstExport(names: seq<seq<CChar>>, nameHash: Word): (r: Option<nat>)
    ensures r.None? <==> forall k :: 0 <= k < |names| ==> Hash(names[k]) != nameHash
    ensures r.Some? ==> r.value < |names| && Hash(names[r.value]) == nameHash
    ensures r.Some? ==> forall k :: 0 <= k < r.value ==> Hash(names[k]) != nameHash
  {
    if |names| == 0 then None
    else if Hash(names[0]) == nameHash then Some(0)
    else
      var tail := names[1..];
      assert forall k :: 0 <= k < |tail| ==> tail[k] == names[k + 1];
      match FirstExport(tail, nameHash)
      case None => None
      case Some(i) => Some(i + 1)
  }

  datatype ExportFailure = NullModule | BadDosSignature | BadNtSignature | NoExportDirectory | NoMatch

  /** What `find_export(module, hash)` comes to; all but Found return null. */
  datatype ExportLookup = Found(rva: Word) | Forwarded | Failed(reason: ExportFailure)

  /** The failures the header under include/ reports as EXPORT_NOT_FOUND; a forwarded export is not reported. */
  predicate Reported(r: ExportLookup)
  {
    r.Failed?
  }

  /**
   * Whether an RVA lies in `[export_rva, export_rva + Size)`, the end
   * computed in 32-bit DWORD arithmetic.
   */
  predicate InExportDirectory(img: Image, rva: Word)
  {
    img.exportRva <= rva < Add(img.exportRva, img.exportSize)
  }

  /** What `find_export(module, name_hash)` returns for an image; None is a null module handle. */
  function Export(image: Option<Image>, nameHash: Word): ExportLookup
    requires image.Some? ==> Tables(image.value)
  {
    match image
    case None => Failed(NullModule)
    case Some(img) =>
      if !img.dosSignatureValid then Failed(BadDosSignature)
      else if !img.ntSignatureValid then Failed(BadNtSignature)
      else if img.exportRva == 0 then Failed(NoExportDirectory)
      else match FirstExport(img.names, nameHash)
        case None => Failed(NoMatch)
        case Some(i) =>
          var rva := img.functions[img.ordinals[i]];
          if InExportDirectory(img, rva) then Forwarded else Found(rva)
  }

  /** A well-formed image: both signatures hold and there is an export directory. */
  predicate Readable(img: Image)
  {
    img.dosSignatureValid && img.ntSignatureValid && img.exportRva != 0
  }

  /**
   * The first name whose hash matches decides the lookup through its
   * ordinal: its function, or null when that RVA is forwarded, whatever
   * later names would match.
   */
  lemma ExportFirstMatch(img: Image, nameHash: Word, i: nat)
    requires Tables(img) && Readable(img)
    requires i < |img.names| && Hash(img.names[i]) == nameHash
    requires forall k :: 0 <= k < i ==> Hash(img.names[k]) != nameHash
    ensures var rva := img.functions[img.ordinals[i]];
      Export(Some(img), nameHash) == if InExportDirectory(img, rva) then Forwarded else Found(rva)
  {
    var r := FirstExport(img.names, nameHash);
  }

  /**
   * The lookup is reported, and null, exactly for a null module, a bad
   * signature, no export directory, or no name with that hash.
   */
  lemma ExportFailures(image: Option<Image>, nameHash: Word)
    requires image.Some? ==> Tables(image.value)
    ensures Reported(Export(image, nameHash)) <==>
      image.None? || !Readable(image.value) ||
      forall k :: 0 <= k < |image.value.names| ==> Hash(image.value.names[k]) != nameHash
  {
  }

  /** `find_export(module, name_hash)`; the image is None for a null module handle. */
  method FindExport(image: Option<Image>, nameHash: Word) returns (r: ExportLookup)
    requires image.Some? ==> Tables(image.value)
    ensures r == Export(image, nameHash)
  {
    if image.None? {
      return Failed(NullModule);
    }
    var img := image.value;
    if !img.dosSignatureValid {
      return Failed(BadDosSignature);
    }
    if !img.ntSignatureValid {
      return Failed(BadNtSignature);
    }
    var exportRva := img.exportRva;
    if exportRva == 0 {
      return Failed(NoExportDirectory);
    }
    for i := 0 to |img.names|
      invariant forall k :: 0 <= k < i ==> Hash(img.names[k]) != nameHash
    {
      var funcName := img.names[i] + [0];
      var h := HashText(funcName);
      CStrOfText(img.names[i]);
      if h == nameHash {
        ExportFirstMatch(img, nameHash, i);
        var ordinal := img.ordinals[i];
        var funcRva := img.functions[ordinal];
        var exportDirStart := exportRva;
        var exportDirEnd := Add(exportRva, img.exportSize);
        if funcRva >= exportDirStart && funcRva < exportDirEnd {
          return Forwarded;
        }
        return Found(funcRva);
      }
    }
    assert FirstExport(img.names, nameHash).None?;
    return Failed(NoMatch);
  }

  /**
   * `find_export(module, name)`: the plain hash of the name, then the table
   * search; `getProcAddress` stands for what the `GetProcAddress` fallback
   * returns. Some(rva) is the address `base + rva`.
   */
  method FindExportByName(image: Option<Image>, name: seq<CChar>, getProcAddress: Option<Word>)
    returns (address: Option<Word>)
    requires 0 in name && (image.Some? ==> Tables(image.value))
    ensures var r := Export(image, Hash(CStr(name)));
      address == if r.Found? then Some(r.rva) else getProcAddress
  {
    var nameHash := HashText(name);
    var r := FindExport(image, nameHash);
    if r.Found? {
      address := Some(r.rva);
    } else {
      address := getProcAddress;
    }
  }
}
