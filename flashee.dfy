/**
 * EEPROM emulation on four flash pages (src/gd32_flashee.cpp).
 *
 * The region is a sequence of four pages of 256 words each. A page can be
 * erased as a whole (every word becomes 0xFFFFFFFF) and a word can be
 * programmed only while it is erased. Each page holds at most one record
 * (`FlashPart`): start flag, version, checksum, 252 storage words, end flag.
 * The in-RAM staging copy `ee_buffer` and the active page index
 * `cur_ee_offset_page` are the fields of `FlashEE`.
 */
module FlashEeprom {
  import opened Common

  const PAGE_WORDS: nat := 256     // FLASH_EE_PAGE_SIZE / sizeof(uint32_t)
  const PAGES: nat := 4            // FLASH_PAGE_USE_AS_EE
  const STORAGE_SIZE: nat := 252   // FLASH_EE_STORAGE_SIZE
  const FLAG: u32 := 0xAAAAAAAA    // FLASH_EE_START_FLAG == FLASH_EE_END_FLAG
  const ERASED: u32 := 0xFFFFFFFF  // what an erased flash word reads as
  const COLD_FILL: u32 := 0xff     // what ee_init writes into each storage word on a cold start

  // Word offsets of the FlashPart fields.
  const START_FLAG_AT: nat := 0
  const VERSION_AT: nat := 1
  const CHECKSUM_AT: nat := 2
  const STORAGE_AT: nat := 3
  const END_FLAG_AT: nat := 255

  type Page = seq<u32>

  /** The record layout of one page. */
  datatype FlashPart = FlashPart(startFlag: u32, version: u32, checksum: u32, storage: seq<u32>, endFlag: u32)

  predicate WellFormed(p: FlashPart)
  {
    |p.storage| == STORAGE_SIZE
  }

  /** The words a record occupies, in address order. */
  function Encode(p: FlashPart): (w: Page)
  {
    [p.startFlag, p.version, p.checksum] + p.storage + [p.endFlag]
  }

  /** The record a page of words reads as (the struct overlay). */
  function Decode(w: Page): (p: FlashPart)
    requires |w| == PAGE_WORDS
    ensures WellFormed(p)
  {
    FlashPart(w[START_FLAG_AT], w[VERSION_AT], w[CHECKSUM_AT], w[STORAGE_AT..END_FLAG_AT], w[END_FLAG_AT])
  }

  lemma DecodeEncode(p: FlashPart)
    requires WellFormed(p)
    ensures |Encode(p)| == PAGE_WORDS && Decode(Encode(p)) == p
  {
    var w := Encode(p);
    assert w[STORAGE_AT..END_FLAG_AT] == p.storage;
  }

  lemma EncodeDecode(w: Page)
    requires |w| == PAGE_WORDS
    ensures Encode(Decode(w)) == w
  {
    var e := Encode(Decode(w));
    assert |e| == |w|;
    forall i | 0 <= i < |w| ensures e[i] == w[i] {
      if STORAGE_AT <= i < END_FLAG_AT {
        assert e[i] == w[STORAGE_AT..END_FLAG_AT][i - STORAGE_AT];
      }
    }
  }

  // ---------------------------------------------------------------------------
  // Checksum (_ee_checksum)

  /** The checksum loop: starting from `acc`, add every word with 32-bit wrap-around. */
  function SumFrom(acc: u32, s: seq<u32>): u32
    decreases |s|
  {
    if s == [] then acc else SumFrom(Add32(acc, s[0]), s[1..])
  }

  /** The unbounded sum of a sequence of words. */
  function Sum(s: seq<u32>): int
  {
    if s == [] then 0 else s[0] as int + Sum(s[1..])
  }

  /** The checksum of a record: its version plus every storage word, flags excluded. */
  function Checksum(p: FlashPart): u32
  {
    SumFrom(p.version, p.storage)
  }

  lemma ModAddLeft(a: int, b: int)
    ensures (a % WORD_MOD + b) % WORD_MOD == (a + b) % WORD_MOD
  {
    var q := a / WORD_MOD;
    assert a == q * WORD_MOD + a % WORD_MOD;
    assert a + b == (a % WORD_MOD + b) + q * WORD_MOD;
  }

  lemma {:induction false} SumFromIsModularSum(acc: u32, s: seq<u32>)
    ensures SumFrom(acc, s) as int == (acc as int + Sum(s)) % WORD_MOD
    decreases |s|
  {
    if s != [] {
      SumFromIsModularSum(Add32(acc, s[0]), s[1..]);
      ModAddLeft(acc as int + s[0] as int, Sum(s[1..]));
    }
  }

  /** The checksum is the version plus the sum of the 252 storage words, modulo 2^32. */
  lemma ChecksumIsSum(p: FlashPart)
    ensures Checksum(p) as int == (p.version as int + Sum(p.storage)) % WORD_MOD
  {
    SumFromIsModularSum(p.version, p.storage);
  }

  // ---------------------------------------------------------------------------
  // Validity and the boot-time scan (_ee_load_from_flash)

  /** What the scan accepts: both flags, the requested version and a matching checksum. */
  predicate IsValid(p: FlashPart, version: u32)
  {
    p.startFlag == FLAG && p.endFlag == FLAG && p.version == version && Checksum(p) == p.checksum
  }

  predicate PageValid(w: Page, version: u32)
    requires |w| == PAGE_WORDS
  {
    IsValid(Decode(w), version)
  }

  /** A flash region: four pages of 256 words. */
  ghost predicate Region(f: seq<Page>)
  {
    |f| == PAGES && forall i :: 0 <= i < |f| ==> |f[i]| == PAGE_WORDS
  }

  /** The index of the first page at or after `k` that is valid, or PAGES if there is none. */
  function ScanFrom(f: seq<Page>, version: u32, k: nat): (r: nat)
    requires Region(f) && k <= PAGES
    ensures k <= r <= PAGES
    ensures r < PAGES ==> PageValid(f[r], version)
    ensures forall j :: k <= j < r ==> !PageValid(f[j], version)
    decreases PAGES - k
  {
    if k == PAGES then PAGES
    else if PageValid(f[k], version) then k
    else ScanFrom(f, version, k + 1)
  }

  /** The page the boot scan selects (PAGES when none is valid). */
  function Scan(f: seq<Page>, version: u32): (r: nat)
    requires Region(f)
    ensures r <= PAGES
    ensures r < PAGES ==> PageValid(f[r], version)
    ensures forall j :: 0 <= j < r ==> !PageValid(f[j], version)
  {
    ScanFrom(f, version, 0)
  }

  /** The scan's result is determined: it is the lowest valid index, or PAGES when none is. */
  lemma ScanIsFirstValid(f: seq<Page>, version: u32, k: nat)
    requires Region(f) && k <= PAGES
    requires k < PAGES ==> PageValid(f[k], version)
    requires forall j :: 0 <= j < k ==> !PageValid(f[j], version)
    ensures Scan(f, version) == k
  {
  }

  // ---------------------------------------------------------------------------
  // Pages and the commit protocol (_ee_write_to_flash)

  function ErasedPage(): (w: Page)
    ensures |w| == PAGE_WORDS
  {
    seq(PAGE_WORDS, _ => ERASED)
  }

  /** Some word of the page is not erased, so it must be erased before programming. */
  predicate NeedsErase(w: Page)
  {
    exists j :: 0 <= j < |w| && w[j] != ERASED
  }

  lemma ErasedPageInvalid(version: u32)
    ensures !PageValid(ErasedPage(), version)
  {
    assert Decode(ErasedPage()).startFlag == ERASED;
  }

  /** The round-robin successor of the active page. */
  function NextPage(cur: nat): (t: nat)
    ensures t < PAGES
  {
    (cur + 1) % PAGES
  }

  /** The region after a completed commit of record `w` from active page `cur`. */
  function Commit(f: seq<Page>, cur: nat, w: Page): (g: seq<Page>)
    requires Region(f) && |w| == PAGE_WORDS && cur <= PAGES
    ensures Region(g)
    ensures g[NextPage(cur)] == w
    ensures cur < PAGES ==> g[cur] == ErasedPage()
    ensures forall j :: 0 <= j < PAGES && j != NextPage(cur) && j != cur ==> g[j] == f[j]
  {
    var g := f[NextPage(cur) := w];
    if cur < PAGES then g[cur := ErasedPage()] else g
  }

  /** The page offsets a commit from `cur` passes to the erase command, in order. */
  function CommitErases(f: seq<Page>, cur: nat): seq<nat>
    requires Region(f)
  {
    (if NeedsErase(f[NextPage(cur)]) then [NextPage(cur)] else []) + [cur]
  }

  /**
   * Wear: a commit erases its target at most once, and only when some word of it
   * is not erased; the only other erase is the one of the previous page.
   */
  lemma CommitErasesTargetOnlyIfDirty(f: seq<Page>, cur: nat)
    requires Region(f) && cur <= PAGES
    ensures |CommitErases(f, cur)| == (if NeedsErase(f[NextPage(cur)]) then 2 else 1)
    ensures CommitErases(f, cur)[|CommitErases(f, cur)| - 1] == cur
    ensures forall i :: 0 <= i < |CommitErases(f, cur)| - 1 ==> CommitErases(f, cur)[i] == NextPage(cur)
  {
  }

  /**
   * Save round trip: once the staged record `w` is committed, and no page below the
   * target other than the previous one was valid, the next boot scan selects the
   * target and reads back exactly the staged storage.
   */
  lemma SaveThenScan(f: seq<Page>, cur: nat, w: Page, version: u32)
    requires Region(f) && cur <= PAGES && |w| == PAGE_WORDS
    requires PageValid(w, version)
    requires forall j :: 0 <= j < NextPage(cur) && j != cur ==> !PageValid(f[j], version)
    ensures Scan(Commit(f, cur, w), version) == NextPage(cur)
    ensures Decode(Commit(f, cur, w)[Scan(Commit(f, cur, w), version)]).storage == Decode(w).storage
  {
    var g := Commit(f, cur, w);
    forall j | 0 <= j < NextPage(cur) ensures !PageValid(g[j], version) {
      if j == cur {
        ErasedPageInvalid(version);
      }
    }
    ScanIsFirstValid(g, version, NextPage(cur));
  }

  /**
   * The crash window: the target has been programmed but the previous page not yet
   * erased. If the previous page was the only valid one, the scan now sees two valid
   * records and selects the lower index, whichever of the two is newer.
   */
  lemma CrashWindowPicksLowerIndex(f: seq<Page>, prev: nat, w: Page, version: u32)
    requires Region(f) && prev < PAGES && |w| == PAGE_WORDS
    requires PageValid(f[prev], version) && PageValid(w, version)
    requires forall j :: 0 <= j < PAGES && j != prev ==> !PageValid(f[j], version)
    ensures Scan(f[NextPage(prev) := w], version) == Min(prev, NextPage(prev))
  {
    var g := f[NextPage(prev) := w];
    var m := Min(prev, NextPage(prev));
    assert PageValid(g[m], version);
    ScanIsFirstValid(g, version, m);
  }

  /** The sequence of pages that `m` successive saves starting from active page `s` write. */
  function Targets(s: nat, m: nat): (ts: seq<nat>)
    ensures |ts| == m
    decreases m
  {
    if m == 0 then [] else [NextPage(s)] + Targets(NextPage(s), m - 1)
  }

  /** Rotation: the i-th of m successive saves from page s writes page (s + i + 1) % 4. */
  lemma {:induction false} RotationOrder(s: nat, m: nat)
    ensures forall i :: 0 <= i < m ==> Targets(s, m)[i] == (s + i + 1) % PAGES
    decreases m
  {
    if m > 0 {
      RotationOrder(NextPage(s), m - 1);
      forall i | 0 <= i < m ensures Targets(s, m)[i] == (s + i + 1) % PAGES {
        if i > 0 {
          assert Targets(s, m)[i] == Targets(NextPage(s), m - 1)[i - 1];
          assert Targets(s, m)[i] == ((s + 1) % PAGES + i) % PAGES;
          ModAddSmall(s + 1, i);
        }
      }
    }
  }

  lemma ModAddSmall(a: nat, b: nat)
    ensures (a % PAGES + b) % PAGES == (a + b) % PAGES
  {
    var q := a / PAGES;
    assert a == q * PAGES + a % PAGES;
    assert a + b == (a % PAGES + b) + q * PAGES;
  }

  // ---------------------------------------------------------------------------
  // Cold start (ee_init when the scan fails)

  function ColdStorage(): (s: seq<u32>)
    ensures |s| == STORAGE_SIZE
  {
    seq(STORAGE_SIZE, _ => COLD_FILL)
  }

  /** The staging record after a cold start for `version`. */
  function ColdRecord(version: u32): FlashPart
  {
    FlashPart(FLAG, version, SumFrom(version, ColdStorage()), ColdStorage(), FLAG)
  }

  lemma {:induction false} SumOfConstant(s: seq<u32>, c: u32)
    requires forall i :: 0 <= i < |s| ==> s[i] == c
    ensures Sum(s) == |s| * c as int
  {
    if s != [] {
      SumOfConstant(s[1..], c);
    }
  }

  /**
   * The cold-start record is valid for its version; its checksum is the version
   * plus 252 * 0xff, modulo 2^32.
   */
  lemma ColdRecordValid(version: u32)
    ensures WellFormed(ColdRecord(version)) && IsValid(ColdRecord(version), version)
    ensures ColdRecord(version).checksum as int == (version as int + STORAGE_SIZE * COLD_FILL as int) % WORD_MOD
  {
    SumOfConstant(ColdStorage(), COLD_FILL);
    ChecksumIsSum(ColdRecord(version));
  }

  /** The storage ee_init stages from region `f`: the selected page's, or the cold-start fill. */
  function BootStorage(f: seq<Page>, version: u32): (s: seq<u32>)
    requires Region(f)
    ensures |s| == STORAGE_SIZE
  {
    var k := Scan(f, version);
    if k == PAGES then ColdStorage() else Decode(f[k]).storage
  }

  // ---------------------------------------------------------------------------
  // The store

  class FlashEE {
    /** The four pages of the emulated region. */
    var flash: seq<Page>
    /** Every page offset passed to the erase command, oldest first. */
    var eraseLog: seq<nat>
    /** cur_ee_offset_page: the active page, or PAGES after a failed scan. */
    var cur: nat
    /** ee_buffer: the staging record, word by word. */
    const buf: array<u32>

    ghost predicate Valid()
      reads this
    {
      Region(flash) && buf.Length == PAGE_WORDS && cur <= PAGES
    }

    /** The staging record as a FlashPart. */
    function Staged(): (p: FlashPart)
      reads this, buf
      requires Valid()
    {
      Decode(buf[..])
    }

    /** Static initial state: the staging record is all zero and cur is 0. */
    constructor (region: seq<Page>)
      requires Region(region)
      ensures Valid() && fresh(buf)
      ensures flash == region && eraseLog == [] && cur == 0
      ensures buf[..] == seq(PAGE_WORDS, _ => 0)
    {
      flash := region;
      eraseLog := [];
      cur := 0;
      buf := new u32[PAGE_WORDS](_ => 0);
    }

    /** Erase command on page `page` of the region; offsets past the region change nothing in it. */
    method ErasePage(page: nat)
      requires Valid()
      modifies this`flash, this`eraseLog
      ensures Valid()
      ensures flash == if page < PAGES then old(flash)[page := ErasedPage()] else old(flash)
      ensures eraseLog == old(eraseLog) + [page]
    {
      if page < PAGES {
        flash := flash[page := ErasedPage()];
      }
      eraseLog := eraseLog + [page];
    }

    /** Program command: writes one word, which must still be erased. */
    method ProgramWord(page: nat, i: nat, value: u32)
      requires Valid() && page < PAGES && i < PAGE_WORDS
      requires flash[page][i] == ERASED
      modifies this`flash
      ensures Valid()
      ensures flash == old(flash)[page := old(flash)[page][i := value]]
    {
      flash := flash[page := flash[page][i := value]];
    }

    /** memcpy of one page into the staging buffer. */
    method ReadPage(page: nat)
      requires Valid() && page < PAGES
      modifies buf
      ensures buf[..] == flash[page]
    {
      forall i | 0 <= i < PAGE_WORDS {
        buf[i] := flash[page][i];
      }
    }

    /** _ee_load_from_flash: select the first valid page, leaving its copy in the buffer. */
    method LoadFromFlash(version: u32) returns (found: bool)
      requires Valid()
      modifies this`cur, buf
      ensures Valid()
      ensures cur == Scan(flash, version)
      ensures found <==> cur < PAGES
      ensures found ==> buf[..] == flash[cur]
      ensures !found ==> buf[..] == flash[PAGES - 1]
    {
      cur := 0;
      while cur < PAGES
        invariant Valid()
        invariant forall j :: 0 <= j < cur ==> !PageValid(flash[j], version)
        invariant 0 < cur ==> buf[..] == flash[cur - 1]
      {
        ReadPage(cur);
        if PageValid(buf[..], version) {
          ScanIsFirstValid(flash, version, cur);
          return true;
        }
        cur := cur + 1;
      }
      ScanIsFirstValid(flash, version, PAGES);
      found := false;
    }

    /** _ee_update_checksum: store the checksum of the staging record in it. */
    method UpdateChecksum()
      requires Valid()
      modifies buf
      ensures buf[..] == old(buf[..])[CHECKSUM_AT := Checksum(Decode(old(buf[..])))]
      ensures Staged().checksum == Checksum(Staged())
    {
      ghost var before := buf[..];
      buf[CHECKSUM_AT] := Checksum(Staged());
      assert buf[..][STORAGE_AT..END_FLAG_AT] == before[STORAGE_AT..END_FLAG_AT];
    }

    /** The first loop of the write: erase the target only if some word of it is not erased. */
    method EraseIfDirty(target: nat)
      requires Valid() && target < PAGES
      modifies this`flash, this`eraseLog
      ensures Valid()
      ensures flash == old(flash)[target := ErasedPage()]
      ensures eraseLog == old(eraseLog) + (if NeedsErase(old(flash)[target]) then [target] else [])
    {
      var k := 0;
      while k < PAGE_WORDS
        invariant k <= PAGE_WORDS
        invariant flash == old(flash) && eraseLog == old(eraseLog)
        invariant forall j :: 0 <= j < k ==> flash[target][j] == ERASED
      {
        if flash[target][k] != ERASED {
          ErasePage(target);
          return;
        }
        k := k + 1;
      }
      assert flash[target] == ErasedPage();
      assert flash == old(flash)[target := ErasedPage()];
    }

    /** The second loop of the write: program the staging record word by word. */
    method ProgramPage(target: nat)
      requires Valid() && target < PAGES
      requires flash[target] == ErasedPage()
      modifies this`flash
      ensures Valid()
      ensures flash == old(flash)[target := buf[..]]
    {
      var k := 0;
      assert buf[..k] + ErasedPage()[k..] == ErasedPage();
      while k < PAGE_WORDS
        invariant k <= PAGE_WORDS && Valid()
        invariant flash == old(flash)[target := buf[..k] + ErasedPage()[k..]]
      {
        ProgramWord(target, k, buf[k]);
        assert (buf[..k] + ErasedPage()[k..])[k := buf[k]] == buf[..k + 1] + ErasedPage()[k + 1..];
        k := k + 1;
      }
      assert buf[..k] + ErasedPage()[k..] == buf[..];
    }

    /**
     * _ee_write_to_flash: program the staging record into the next page, erase
     * the previous page and advance `cur`. There is no failure path.
     */
    method WriteToFlash() returns (ok: bool)
      requires Valid()
      modifies this`flash, this`eraseLog, this`cur
      ensures Valid() && ok
      ensures cur == NextPage(old(cur))
      ensures flash == Commit(old(flash), old(cur), buf[..])
      ensures eraseLog == old(eraseLog) + CommitErases(old(flash), old(cur))
    {
      var target := NextPage(cur);
      var previous := cur;
      EraseIfDirty(target);
      ProgramPage(target);
      // The crash window lies here: the target holds the record, the previous page is still intact.
      ErasePage(previous);
      cur := target;
      ok := true;
    }

    /** ee_init: load the first valid page, or prepare a cold-start record (returns -1). */
    method Init(version: u32) returns (r: int)
      requires Valid()
      modifies this`cur, buf
      ensures Valid()
      ensures r == -1 <==> Scan(flash, version) == PAGES
      ensures r != -1 ==> 0 <= r < PAGES && r == cur == Scan(flash, version) && buf[..] == flash[r]
      ensures r == -1 ==> cur == PAGES && Staged() == ColdRecord(version)
    {
      var found := LoadFromFlash(version);
      if !found {
        for i := 0 to STORAGE_SIZE
          invariant Valid() && cur == PAGES
          invariant forall j :: STORAGE_AT <= j < STORAGE_AT + i ==> buf[j] == COLD_FILL
        {
          buf[STORAGE_AT + i] := COLD_FILL;
        }
        buf[START_FLAG_AT] := FLAG;
        buf[END_FLAG_AT] := FLAG;
        buf[VERSION_AT] := version;
        assert buf[STORAGE_AT..END_FLAG_AT] == ColdStorage();
        UpdateChecksum();
        assert buf[..][STORAGE_AT..END_FLAG_AT] == ColdStorage();
        return -1;
      }
      r := cur;
    }

    /** ee_save: refresh the checksum and commit the staging record; returns the new page. */
    method Save() returns (r: int)
      requires Valid()
      modifies this`flash, this`eraseLog, this`cur, buf
      ensures Valid()
      ensures r == cur == NextPage(old(cur))
      ensures buf[..] == old(buf[..])[CHECKSUM_AT := Checksum(Decode(old(buf[..])))]
      ensures Staged().checksum == Checksum(Staged())
      ensures flash == Commit(old(flash), old(cur), buf[..])
      ensures eraseLog == old(eraseLog) + CommitErases(old(flash), old(cur))
    {
      UpdateChecksum();
      var ok := WriteToFlash();
      r := if ok then cur else -1;
    }

    /**
     * ee_init, ee_set and ee_save in sequence: the page written holds a valid record,
     * the next boot scan selects that page, and it reads back the booted storage with
     * the one word changed (unchanged when ee_set refused the offset).
     */
    method InitSetSave(version: u32, offset: u32, value: u32) returns (page: int)
      requires Valid()
      modifies this`flash, this`eraseLog, this`cur, buf
      ensures Valid() && page == cur < PAGES
      ensures PageValid(flash[cur], version) && Scan(flash, version) == cur
      ensures Decode(flash[cur]).storage ==
                if offset as int < STORAGE_SIZE then BootStorage(old(flash), version)[offset := value]
                else BootStorage(old(flash), version)
    {
      ghost var f0 := flash;
      var r := Init(version);
      ghost var c0 := cur;
      ghost var loaded := buf[..];
      assert Decode(loaded).storage == BootStorage(f0, version);
      assert Decode(loaded).startFlag == FLAG && Decode(loaded).endFlag == FLAG && Decode(loaded).version == version;
      assert forall j :: 0 <= j < NextPage(c0) && j != c0 ==> !PageValid(f0[j], version);
      var ok := Set(offset, value);
      ghost var edited := buf[..];
      page := Save();
      assert buf[..][STORAGE_AT..END_FLAG_AT] == edited[STORAGE_AT..END_FLAG_AT];
      if ok {
        assert edited[STORAGE_AT..END_FLAG_AT] == loaded[STORAGE_AT..END_FLAG_AT][offset as int := value];
      }
      assert PageValid(buf[..], version);
      SaveThenScan(f0, c0, buf[..], version);
    }

    /** ee_get: the storage word at `offset`, or nothing when it is out of range. */
    function Get(offset: u32): (r: Option<u32>)
      reads this, buf
      requires Valid()
      ensures r.Some? <==> offset as int < STORAGE_SIZE
      ensures r.Some? ==> r.value == Staged().storage[offset]
    {
      if offset as int >= STORAGE_SIZE then None else Some(buf[STORAGE_AT + offset as int])
    }

    /** ee_set: change the storage word at `offset`, unless it is out of range. */
    method Set(offset: u32, value: u32) returns (ok: bool)
      requires Valid()
      modifies buf
      ensures ok <==> offset as int < STORAGE_SIZE
      ensures ok ==> buf[..] == old(buf[..])[STORAGE_AT + offset as int := value]
      ensures !ok ==> buf[..] == old(buf[..])
      ensures ok ==> Get(offset) == Some(value)
      ensures forall o: u32 :: o != offset ==> Get(o) == old(Get(o))
    {
      if offset as int >= STORAGE_SIZE {
        return false;
      }
      buf[STORAGE_AT + offset as int] := value;
      ok := true;
    }
  }
}
