/**
 * The two-tier image cache (`ImageCacheManager`): a key derived from the URL
 * text, an in-memory tier, an on-disk tier of `<key>.png` files in the cache
 * directory, the memory → disk → network lookup of `loadImage`, the bulk
 * `clearCache` and the age sweep over the disk tier.
 *
 * Days are integers; the platform image type, its decoder and encoder and the
 * SHA-256 digest are constants of the cache object supplied at construction.
 */
module ImageCache {
  import opened Wrappers
  import opened Text
  import opened Bytes

  /** A decoded platform image (NSImage / UIImage); nothing of its content is modelled. */
  type Image(==)

  /** A SHA-256 digest (FIPS 180-4): 32 bytes. */
  type Digest = d: seq<Byte> | |d| == 32 witness seq(32, _ => 0 as Byte)

  /** `ImageCacheError`. */
  datatype ImageCacheError =
    | InvalidURL
    | NetworkError(detail: string)
    | NoData
    | ImageConversionFailed
    | FileSystemError(detail: string)

  /** Files older than this many whole days are swept. */
  const MaxCacheDays := 30

  // ---------------------------------------------------------------------------
  // Key derivation
  // ---------------------------------------------------------------------------

  /** One lower-case hexadecimal digit. */
  function HexDigit(n: nat): (c: char)
    requires n < 16
    ensures IsLowerHexChar(c)
  {
    if n < 10 then ('0' as int + n) as char else ('a' as int + n - 10) as char
  }

  predicate IsLowerHexChar(c: char) {
    '0' <= c <= '9' || 'a' <= c <= 'f'
  }

  predicate IsLowerHex(s: string) {
    forall i :: 0 <= i < |s| ==> IsLowerHexChar(s[i])
  }

  function HexValue(c: char): (n: nat)
    requires IsLowerHexChar(c)
    ensures n < 16
  {
    if c <= '9' then c as int - '0' as int else c as int - 'a' as int + 10
  }

  /** `String(format: "%02x", b)`: two lower-case hex digits, high nibble first. */
  function HexByte(b: Byte): string {
    [HexDigit(b as int / 16), HexDigit(b as int % 16)]
  }

  /** `compactMap { String(format: "%02x", $0) }.joined()` over the bytes. */
  function HexEncode(d: seq<Byte>): (s: string)
    ensures |s| == 2 * |d|
    ensures IsLowerHex(s)
  {
    if d == [] then "" else HexByte(d[0]) + HexEncode(d[1..])
  }

  /** Reads pairs of lower-case hex digits back into bytes. */
  function HexDecode(s: string): seq<Byte>
    requires |s| % 2 == 0 && IsLowerHex(s)
  {
    if s == [] then [] else [(HexValue(s[0]) * 16 + HexValue(s[1])) as Byte] + HexDecode(s[2..])
  }

  /** Decoding undoes the encoding, so distinct digests give distinct keys. */
  lemma {:induction false} HexRoundTrip(d: seq<Byte>)
    ensures HexDecode(HexEncode(d)) == d
  {
    if d != [] {
      var s := HexEncode(d);
      assert s[2..] == HexEncode(d[1..]);
      HexRoundTrip(d[1..]);
      assert HexValue(s[0]) == d[0] as int / 16 && HexValue(s[1]) == d[0] as int % 16;
    }
  }

  /** The key on platforms with CryptoKit: the hex text of the URL's digest. */
  function DigestCacheKey(digest: Digest): (key: string)
    ensures |key| == 64 && IsLowerHex(key)
  {
    HexEncode(digest)
  }

  /** Distinct digests give distinct keys. */
  lemma DigestCacheKeyInjective(d1: Digest, d2: Digest)
    requires d1 != d2
    ensures DigestCacheKey(d1) != DigestCacheKey(d2)
  {
    HexRoundTrip(d1);
    HexRoundTrip(d2);
  }

  /** The path separators `/`, `.` and `:` of a fallback key. */
  predicate IsSeparator(c: char) {
    c == '/' || c == '.' || c == ':'
  }

  /** Each separator becomes `_`; every other character stays where it is. */
  function Separators(s: string): (r: string)
    ensures |r| == |s|
    ensures forall i :: 0 <= i < |s| ==> r[i] == if IsSeparator(s[i]) then '_' else s[i]
  {
    seq(|s|, i requires 0 <= i < |s| => if IsSeparator(s[i]) then '_' else s[i])
  }

  /** The key on platforms without CryptoKit: separators of the URL replaced by `_`. */
  function FallbackCacheKey(url: string): (key: string)
    ensures key == Separators(ReplaceAll(url, "://", "_"))
    ensures '/' !in key && '.' !in key && ':' !in key
  {
    var k1 := ReplaceAll(url, "://", "_");
    var k2 := ReplaceAll(k1, "/", "_");
    var k3 := ReplaceAll(k2, ".", "_");
    var k4 := ReplaceAll(k3, ":", "_");
    ReplaceAllOneChar(k1, '/', '_');
    ReplaceAllOneChar(k2, '.', '_');
    ReplaceAllOneChar(k3, ':', '_');
    assert k4 == Separators(k1);
    k4
  }

  /** The fallback key of "a.b": the dot becomes `_`. */
  lemma FallbackCacheKeyOfDot()
    ensures FallbackCacheKey("a.b") == "a_b"
  {
    assert ReplaceAll("b", "://", "_") == "b";
    assert ReplaceAll(".b", "://", "_") == ".b";
    assert ReplaceAll("a.b", "://", "_") == "a.b";
    assert Separators("a.b") == "a_b";
  }

  /** The fallback key of "a:b": the colon becomes `_`. */
  lemma FallbackCacheKeyOfColon()
    ensures FallbackCacheKey("a:b") == "a_b"
  {
    assert ReplaceAll("b", "://", "_") == "b";
    assert ReplaceAll(":b", "://", "_") == ":b";
    assert ReplaceAll("a:b", "://", "_") == "a:b";
    assert Separators("a:b") == "a_b";
  }

  /** Unlike the digest key, the fallback key can map two URLs to one file. */
  lemma FallbackCacheKeyCollides()
    ensures FallbackCacheKey("a.b") == FallbackCacheKey("a:b") == "a_b"
  {
    FallbackCacheKeyOfDot();
    FallbackCacheKeyOfColon();
  }

  // ---------------------------------------------------------------------------
  // Disk tier
  // ---------------------------------------------------------------------------

  /**
   * A file of the cache directory: its bytes, or `None` when the file exists but
   * reading it throws (files are written with complete file protection, so they
   * cannot be read while the device is locked), and its creation day, if readable.
   */
  datatype DiskFile = DiskFile(contents: Option<Bytes>, created: Option<int>)

  /** The file name of a key's entry. */
  function FileName(key: string): string {
    key + ".png"
  }

  /** Distinct keys live in distinct files. */
  lemma FileNameInjective(k1: string, k2: string)
    requires k1 != k2
    ensures FileName(k1) != FileName(k2)
  {
    if |k1| == |k2| {
      assert FileName(k1)[..|k1|] == k1 && FileName(k2)[..|k2|] == k2;
    } else {
      assert |FileName(k1)| != |FileName(k2)|;
    }
  }

  /** A file the sweep deletes: its creation day is known and more than 30 whole days ago. */
  predicate Expired(f: DiskFile, today: int) {
    f.created.Some? && today - f.created.value > MaxCacheDays
  }

  /**
   * The directory after the sweep has visited `names` in order: every visited
   * expired file is deleted unless its removal fails; nothing else changes.
   */
  function Swept(disk: map<string, DiskFile>, names: seq<string>, fails: set<string>, today: int)
    : (r: map<string, DiskFile>)
    ensures forall n :: n in r <==> n in disk && !(n in names && Expired(disk[n], today) && n !in fails)
    ensures forall n :: n in r ==> r[n] == disk[n]
    decreases |names|
  {
    if names == [] then disk
    else
      var n := names[0];
      var next := if n in disk && Expired(disk[n], today) && n !in fails then disk - {n} else disk;
      Swept(next, names[1..], fails, today)
  }

  /** A file created exactly 30 days ago survives the sweep; one created 31 days ago does not. */
  lemma SweepBoundary(today: int, bytes: Bytes)
    ensures var disk := map["a" := DiskFile(Some(bytes), Some(today - 30)), "b" := DiskFile(Some(bytes), Some(today - 31))];
            Swept(disk, ["a", "b"], {}, today) == map["a" := DiskFile(Some(bytes), Some(today - 30))]
  {
    var disk := map["a" := DiskFile(Some(bytes), Some(today - 30)), "b" := DiskFile(Some(bytes), Some(today - 31))];
    var r := Swept(disk, ["a", "b"], {}, today);
    assert "a" in r && "b" !in r;
    assert r.Keys == {"a"};
  }

  /**
   * The directory after `clearCache` has removed `names` in order: removal
   * stops at the first file that cannot be removed (a failing removal, or a
   * file no longer there).
   */
  function Cleared(disk: map<string, DiskFile>, names: seq<string>, fails: set<string>)
    : (r: map<string, DiskFile>)
    ensures r.Keys <= disk.Keys && forall n :: n in r ==> r[n] == disk[n]
    ensures forall n :: n in disk && n in fails ==> n in r
    ensures forall i, n :: 0 <= i < |names| && names[i] in fails && n in disk && n !in names[..i] ==> n in r
    ensures (forall n :: n in names ==> n in disk && n !in fails) && Distinct(names) ==>
              r.Keys == disk.Keys - (set n | n in names)
    decreases |names|
  {
    if names == [] then disk
    else if names[0] in fails || names[0] !in disk then disk
    else
      var r := Cleared(disk - {names[0]}, names[1..], fails);
      assert forall i :: 1 <= i < |names| ==> names[1..][i - 1] == names[i] && names[..i] == [names[0]] + names[1..][..i - 1];
      r
  }

  /** One step of the removal loop: stop at a throwing removal, else remove the first name and go on. */
  lemma ClearedStep(disk: map<string, DiskFile>, names: seq<string>, fails: set<string>)
    requires names != []
    ensures names[0] in fails || names[0] !in disk ==> Cleared(disk, names, fails) == disk
    ensures names[0] !in fails && names[0] in disk ==>
              Cleared(disk, names, fails) == Cleared(disk - {names[0]}, names[1..], fails)
  {
  }

  predicate Distinct(names: seq<string>) {
    forall i, j :: 0 <= i < j < |names| ==> names[i] != names[j]
  }

  /**
   * The removal of the `i`-th listed name succeeds: the file is still there (it was on disk and
   * no earlier entry of the listing removed it) and its removal does not fail.
   */
  predicate Removable(disk: map<string, DiskFile>, names: seq<string>, fails: set<string>, i: int)
    requires 0 <= i < |names|
  {
    names[i] in disk && names[i] !in fails && names[i] !in names[..i]
  }

  /**
   * The exact outcome of a sweep: with `k` the first entry whose removal throws, the names
   * listed before it are gone, every other file is kept as it was.
   */
  lemma {:induction false} ClearedRemovesPrefix(disk: map<string, DiskFile>, names: seq<string>, fails: set<string>, k: nat)
    requires k <= |names|
    requires forall i :: 0 <= i < k ==> Removable(disk, names, fails, i)
    requires k < |names| ==> !Removable(disk, names, fails, k)
    ensures Cleared(disk, names, fails) == disk - (set i | 0 <= i < k :: names[i])
    decreases |names|
  {
    if k == 0 {
      assert names == [] || !Removable(disk, names, fails, 0);
    } else {
      assert Removable(disk, names, fails, 0);
      var d := disk - {names[0]};
      var tail := names[1..];
      forall i | 0 <= i < k - 1
        ensures Removable(d, tail, fails, i)
      {
        assert Removable(disk, names, fails, i + 1);
        assert names[..i + 1] == [names[0]] + tail[..i];
      }
      if k < |names| {
        assert !Removable(disk, names, fails, k);
        assert names[..k] == [names[0]] + tail[..k - 1];
        assert !Removable(d, tail, fails, k - 1);
      }
      ClearedRemovesPrefix(d, tail, fails, k - 1);
      var s := set i | 0 <= i < k :: names[i];
      var s' := set i | 0 <= i < k - 1 :: tail[i];
      assert s == {names[0]} + s' by {
        forall n | n in s ensures n in {names[0]} + s' {
          var i :| 0 <= i < k && names[i] == n;
          if i > 0 { assert tail[i - 1] == n; }
        }
        forall n | n in s' ensures n in s {
          var i :| 0 <= i < k - 1 && tail[i] == n;
          assert names[i + 1] == n;
        }
      }
    }
  }

  /** With a listing of exactly the directory's files and no failing removal, the disk tier ends empty. */
  lemma ClearedEmpties(disk: map<string, DiskFile>, names: seq<string>)
    requires Distinct(names) && forall n :: n in names <==> n in disk
    ensures Cleared(disk, names, {}) == map[]
  {
    var r := Cleared(disk, names, {});
    assert r.Keys == {};
  }

  // ---------------------------------------------------------------------------
  // The cache
  // ---------------------------------------------------------------------------

  /** Outcome of the network fetch: a transport error, or the body (possibly absent). */
  datatype NetworkOutcome = TransportFailure(detail: string) | Received(data: Option<Bytes>)

  /** Where `loadImage` found its answer. */
  datatype Tier = MemoryTier | DiskTier | Network

  class ImageCacheManager {
    /** SHA-256 of the URL's UTF-8 text. */
    const sha256: string -> Digest
    /** CryptoKit is available (iOS 13 / macOS 10.15 and later). */
    const hasSHA256: bool
    /** `UIImage(data:)` / `NSImage(data:)`. */
    const decode: Bytes -> Option<Image>
    /** PNG encoding of an image. */
    const encode: Image -> Option<Bytes>

    /** The in-memory tier (`NSCache`), keyed by cache key. */
    var memory: map<string, Image>
    /** The cache directory: file name to file. */
    var disk: map<string, DiskFile>

    /** Starts with an empty memory tier over the files already in the cache directory. */
    constructor (sha256: string -> Digest, hasSHA256: bool,
                 decode: Bytes -> Option<Image>, encode: Image -> Option<Bytes>,
                 existing: map<string, DiskFile>)
      ensures this.sha256 == sha256 && this.hasSHA256 == hasSHA256
      ensures this.decode == decode && this.encode == encode
      ensures memory == map[] && disk == existing
    {
      this.sha256 := sha256;
      this.hasSHA256 := hasSHA256;
      this.decode := decode;
      this.encode := encode;
      memory := map[];
      disk := existing;
    }

    /** `cacheKey(for:)`. */
    function CacheKey(url: string): (key: string)
      ensures hasSHA256 ==> key == DigestCacheKey(sha256(url)) && |key| == 64 && IsLowerHex(key)
      ensures !hasSHA256 ==> key == FallbackCacheKey(url)
      ensures '/' !in key && '.' !in key && ':' !in key
    {
      if hasSHA256 then
        var key := DigestCacheKey(sha256(url));
        assert forall i :: 0 <= i < |key| ==> key[i] != '/' && key[i] != '.' && key[i] != ':' by {
          forall i | 0 <= i < |key| ensures key[i] != '/' && key[i] != '.' && key[i] != ':' {
            assert IsLowerHexChar(key[i]);
          }
        }
        key
      else FallbackCacheKey(url)
    }

    /** `getImageFromMemoryCache(forKey:)`. */
    function GetImageFromMemoryCache(key: string): (r: Option<Image>)
      reads this
      ensures r.Some? <==> key in memory
      ensures r.Some? ==> r.value == memory[key]
    {
      if key in memory then Some(memory[key]) else None
    }

    /** `getImageFromDiskCache(forKey:)`: a missing, unreadable or undecodable file is a miss. */
    function GetImageFromDiskCache(key: string): (r: Option<Image>)
      reads this
      ensures r.Some? <==>
                && FileName(key) in disk && disk[FileName(key)].contents.Some?
                && decode(disk[FileName(key)].contents.value).Some?
      ensures r.Some? ==> r == decode(disk[FileName(key)].contents.value)
    {
      var name := FileName(key);
      if name in disk && disk[name].contents.Some? then decode(disk[name].contents.value) else None
    }

    /** `saveImageToMemoryCache(_:forKey:)`. */
    method SaveImageToMemoryCache(image: Image, key: string)
      modifies this`memory
      ensures memory == old(memory)[key := image]
    {
      memory := memory[key := image];
    }

    /** The memory tier discarding entries of its own accord (`NSCache` eviction). */
    method Evict(keys: set<string>)
      modifies this`memory
      ensures memory == old(memory) - keys
    {
      memory := memory - keys;
    }

    /**
     * `saveImageToDiskCache(_:forKey:)`: writes `<key>.png`, overwriting it in
     * place (the creation day of an existing file is kept). An encoding or a
     * write failure is swallowed and leaves the directory as it was.
     */
    method SaveImageToDiskCache(image: Image, key: string, writeOk: bool, today: int)
      modifies this`disk
      ensures encode(image).None? || !writeOk ==> disk == old(disk)
      ensures encode(image).Some? && writeOk ==>
                var name := FileName(key);
                var created := if name in old(disk) then old(disk)[name].created else Some(today);
                disk == old(disk)[name := DiskFile(Some(encode(image).value), created)]
    {
      var name := FileName(key);
      var png := encode(image);
      if png.None? {
        return;
      }
      if !writeOk {
        return;
      }
      var created := if name in disk then disk[name].created else Some(today);
      disk := disk[name := DiskFile(Some(png.value), created)];
    }

    /**
     * `loadImage(from:completion:)`: memory, then disk (promoting a hit into
     * memory), then the network outcome `net`, whose success writes both tiers
     * before it is reported.
     */
    method LoadImage(url: string, net: NetworkOutcome, diskWriteOk: bool, today: int)
      returns (r: Result<Image, ImageCacheError>, tier: Tier)
      modifies this
      ensures var key := CacheKey(url);
        && (tier == MemoryTier <==> key in old(memory))
        && (tier == MemoryTier ==>
              r == Success(old(memory)[key]) && memory == old(memory) && disk == old(disk))
        && (tier == DiskTier <==>
              key !in old(memory) && old(GetImageFromDiskCache(key)).Some?)
        && (tier == DiskTier ==>
              r == Success(old(GetImageFromDiskCache(key)).value)
              && memory == old(memory)[key := r.value] && disk == old(disk))
    ensures tier == Network ==> match net
        case TransportFailure(e) =>
          r == Failure(NetworkError(e)) && memory == old(memory) && disk == old(disk)
        case Received(None) =>
          r == Failure(NoData) && memory == old(memory) && disk == old(disk)
        case Received(Some(data)) =>
          if decode(data).None? then
            r == Failure(ImageConversionFailed) && memory == old(memory) && disk == old(disk)
          else
            var key := CacheKey(url);
            var name := FileName(key);
            var image := decode(data).value;
            && r == Success(image)
            && memory == old(memory)[key := image]
            && (encode(image).Some? && diskWriteOk ==>
                 var created := if name in old(disk) then old(disk)[name].created else Some(today);
                 disk == old(disk)[name := DiskFile(Some(encode(image).value), created)])
            && (encode(image).None? || !diskWriteOk ==> disk == old(disk))
    {
      var key := CacheKey(url);
      var cached := GetImageFromMemoryCache(key);
      if cached.Some? {
        return Success(cached.value), MemoryTier;
      }
      var fromDisk := GetImageFromDiskCache(key);
      if fromDisk.Some? {
        SaveImageToMemoryCache(fromDisk.value, key);
        return Success(fromDisk.value), DiskTier;
      }
      tier := Network;
      match net {
        case TransportFailure(e) =>
          r := Failure(NetworkError(e));
        case Received(data) =>
          if data.None? {
            r := Failure(NoData);
          } else {
            var image := decode(data.value);
            if image.None? {
              r := Failure(ImageConversionFailed);
            } else {
              SaveImageToMemoryCache(image.value, key);
              SaveImageToDiskCache(image.value, key, diskWriteOk, today);
              r := Success(image.value);
            }
          }
      }
    }

    /** The loop of `clearCache`: removes the listed files in listing order until a removal throws. */
    method RemoveListed(names: seq<string>, fails: set<string>)
      modifies this`disk
      ensures disk == Cleared(old(disk), names, fails)
    {
      ghost var target := Cleared(disk, names, fails);
      var rest := names;
      while rest != []
        invariant Cleared(disk, rest, fails) == target
        decreases |rest|
      {
        var n := rest[0];
        ClearedStep(disk, rest, fails);
        if n in fails || n !in disk {
          break;
        }
        disk := disk - {n};
        rest := rest[1..];
      }
    }

    /**
     * `clearCache`: empties the memory tier, then removes the listed files in
     * listing order until a removal fails. A failed listing removes nothing.
     */
    method ClearCache(listing: Option<seq<string>>, fails: set<string>)
      modifies this
      ensures memory == map[]
      ensures listing.None? ==> disk == old(disk)
      ensures listing.Some? ==> disk == Cleared(old(disk), listing.value, fails)
    {
      memory := map[];
      if listing.Some? {
        RemoveListed(listing.value, fails);
      }
    }

    /**
     * `cleanOldCacheFiles`: visits the listed files in order and deletes those
     * more than 30 whole days old; a file without a readable creation date is
     * kept, a failing removal is ignored, a failed listing removes nothing.
     */
    method CleanOldCacheFiles(listing: Option<seq<string>>, fails: set<string>, today: int)
      modifies this`disk
      ensures listing.None? ==> disk == old(disk)
      ensures listing.Some? ==> disk == Swept(old(disk), listing.value, fails, today)
    {
      if listing.None? {
        return;
      }
      var names := listing.value;
      for i := 0 to |names|
        invariant Swept(disk, names[i..], fails, today) == Swept(old(disk), names, fails, today)
      {
        var n := names[i];
        assert names[i..][0] == n && names[i..][1..] == names[i + 1..];
        if n in disk && Expired(disk[n], today) && n !in fails {
          disk := disk - {n};
        }
      }
      assert names[|names|..] == [];
    }
  }
}
