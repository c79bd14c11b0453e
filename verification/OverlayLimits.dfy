/** An overlay whose meta record is as long as a load takes, written more tightly
    than this program writes it: the sync that compacts it answers true and what
    was written is gone from the file (executor/host/overlay.cpp:233-236, :433-498). */
module OverlayLimits {
  import opened Bytes
  import opened OverlayMeta
  import opened OverlayFormat
  import opened OverlayLoad
  import opened OverlayStore
  import opened OverlayCommit
  import opened OverlayRun

  const LETTER: byte := 97
  const LONG: nat := 65528

  function Letters(n: nat): (s: seq<byte>)
    ensures |s| == n && forall i :: 0 <= i < n ==> s[i] == 97
  {
    seq(n, _ => LETTER)
  }

  /** "name":"aaa... with no end, 65536 bytes. */
  function TightMeta(): (s: seq<byte>)
    ensures |s| == META_MAX
  {
    NAME_KEY + [COLON, QUOTE] + Letters(LONG)
  }

  lemma {:induction false} PlainUnescape(s: seq<byte>, at: nat)
    requires at <= |s| && forall i :: at <= i < |s| ==> s[i] == 97
    ensures Unescape(s, at) == s[at..]
    decreases |s| - at
  {
    if at < |s| {
      PlainUnescape(s, at + 1);
      assert s[at..] == [s[at]] + s[at + 1..];
    }
  }

  lemma {:induction false} PlainEscape(n: nat)
    ensures Escape(Letters(n)) == Letters(n)
  {
    if n > 0 {
      PlainEscape(n - 1);
      assert Letters(n)[1..] == Letters(n - 1);
      assert Letters(n) == [LETTER] + Letters(n - 1);
    }
  }

  lemma {:induction false} DigitsAtMost(n: nat)
    ensures |Digits(n)| <= n + 1
  {
    if n >= 10 {
      DigitsAtMost(n / 10);
    }
  }

  lemma NoSizeKey(i: nat)
    ensures !Matches(TightMeta(), i, SIZE_KEY)
  {
    var j := TightMeta();
    assert i + 6 <= |j| ==> j[i + 0] != SIZE_KEY[0] || j[i + 1] != SIZE_KEY[1];
  }

  lemma TightName(j: seq<byte>, name: seq<byte>)
    requires 8 <= |j| && j[..6] == NAME_KEY && j[6] == COLON && j[7] == QUOTE
    ensures ParseName(j, name) == Unescape(j, 8)
  {
    hide Unescape, Find;
    forall i | 0 <= i < 6
      ensures j[i] == NAME_KEY[i] && j[i] != COLON
    {
      assert j[i] == j[..6][i];
    }
    KeyFirst(j, NAME_KEY);
    FirstByte(j, COLON, 0, 6);
    FirstByte(j, QUOTE, 6, 7);
  }

  lemma KeyFirst(j: seq<byte>, key: seq<byte>)
    requires |key| <= |j| && forall i :: 0 <= i < |key| ==> j[i] == key[i]
    ensures Find(j, key, 0) == Some(0)
  {
  }

  lemma TightReads(name: seq<byte>)
    ensures ParseName(TightMeta(), name) == Letters(LONG) && ParseSize(TightMeta(), 0) == 0
  {
    hide ParseName, Letters;
    var j := TightMeta();
    assert j[..6] == NAME_KEY && j[8..] == Letters(LONG);
    TightName(j, name);
    PlainUnescape(j, 8);
    NoSize();
  }

  lemma NoSize()
    ensures ParseSize(TightMeta(), 0) == 0
  {
    hide TightMeta, Matches;
    var r := Find(TightMeta(), SIZE_KEY, 0);
    if r.Some? {
      NoSizeKey(r.value);
    }
  }

  lemma NeverFits(s: Store)
    requires s.name == Letters(LONG) && Size(s) == BLOCK
    ensures !MetaFits(s) && |Json(s.name, Size(s))| < U32_LIMIT
  {
    PlainEscape(LONG);
    DigitsAtMost(BLOCK);
  }

  // -------------------------------------------------- a file one block was put in often

  /** Block 0 written and committed N times. */
  function Rounds(n: nat): (r: Records)
    ensures AllFit(r)
  {
    if n == 0 then Nil else Cons(Block(0, 1, Zeros(BLOCK)), Cons(Commit(1, 0), Rounds(n - 1)))
  }

  function TightFile(): seq<byte> {
    HEADER + Encode(Cons(Meta(TightMeta(), 0), Rounds(256)))
  }

  lemma SettleOne(index: map<u32, At>, p: Pending)
    ensures Settle(index, [p]) == index[p.number := p.at]
    ensures Superseded(index, [p]) == if p.number in index then 1 else 0
  {
    assert [p][1..] == [];
  }

  lemma RoundOf(c: Cursor)
    requires c.pending == [] && c.log.reset == 0
    ensures var d := Step(Step(c, Block(0, 1, Zeros(BLOCK))), Commit(1, 0));
            && d == Cursor(d.log, d.log.length, [], None) && d.log.reset == 0
            && d.log.index.Keys == c.log.index.Keys + {0}
            && d.log.dead == c.log.dead + (if 0 in c.log.index then 1 else 0)
            && d.log.metas == if c.meta.Some? then c.log.metas + [c.meta.value] else c.log.metas
  {
    hide Settle, Superseded;
    var p := Pending(0, At(1, c.at + HEAD));
    assert Step(c, Block(0, 1, Zeros(BLOCK))).pending == [p];
    SettleOne(c.log.index, p);
  }

  lemma {:induction false} RoundsFold(c: Cursor, n: nat)
    requires c == Cursor(c.log, c.log.length, [], None) && c.log.reset == 0 && c.log.index.Keys == {0}
    ensures var d := Fold(c, Rounds(n));
            && d == Cursor(d.log, d.log.length, [], None)
            && d.log.index.Keys == {0} && d.log.dead == c.log.dead + n && d.log.metas == c.log.metas
    decreases n
  {
    hide Step, Zeros;
    if n > 0 {
      RoundOf(c);
      var d := Step(c, Block(0, 1, Zeros(BLOCK)));
      FoldTwo(c, Block(0, 1, Zeros(BLOCK)), Commit(1, 0), Rounds(n - 1));
      RoundsFold(Step(d, Commit(1, 0)), n - 1);
    }
  }

  lemma FoldTwo(c: Cursor, a: Record, b: Record, rest: Records)
    ensures Fold(c, Cons(a, Cons(b, rest))) == Fold(Step(Step(c, a), b), rest)
  {
    hide Step;
    assert Fold(c, Cons(a, Cons(b, rest))) == Fold(Step(c, a), Cons(b, rest));
  }

  lemma TightLoads()
    ensures HasHeader(TightFile())
    ensures var log := Load(TightFile());
            log.index.Keys == {0} && log.dead == 255 && log.metas == [TightMeta()] && log.length == |TightFile()|
  {
    hide Step, Zeros, Scan, TightMeta;
    var meta := Meta(TightMeta(), 0);
    HeaderWhole();
    LoadAppended(HEADER, Cons(meta, Rounds(256)));
    HeaderKept(HEADER, Encode(Cons(meta, Rounds(256))));
    StartMeta(TightMeta());
    var c := Step(START, meta);
    FoldMeta(meta, Rounds(256));
    RoundOf(c);
    var d := Step(Step(c, Block(0, 1, Zeros(BLOCK))), Commit(1, 0));
    FoldTwo(c, Block(0, 1, Zeros(BLOCK)), Commit(1, 0), Rounds(255));
    RoundsFold(d, 255);
  }

  predicate MetasFit(c: Cursor) {
    (forall m :: m in c.log.metas ==> |m| <= META_MAX) && (c.meta.Some? ==> |c.meta.value| <= META_MAX)
  }

  lemma {:induction false} FoldMetasFit(c: Cursor, records: Records)
    requires AllFit(records) && MetasFit(c)
    ensures MetasFit(Fold(c, records))
    decreases records
  {
    hide RecordBytes, Settle, Superseded;
    if records.Cons? {
      FoldMetasFit(Step(c, records.head), records.tail);
    }
  }

  /** A file whose last meta record this program wrote, for a disk that is not
      empty, never meets the limit: the record it would write again fits. */
  lemma OwnRecordFits(base: seq<byte>, image: seq<byte>, writable: bool, file: seq<byte>, name: seq<byte>, size: nat)
    requires HasHeader(file) && 0 < size <= DISK_MAX
    requires var metas := Load(file).metas; metas != [] && metas[|metas| - 1] == Json(name, size)
    ensures var s := Open(base, image, writable, Some(file)).value;
            Size(s) == size && s.name == Printable(name) && MetaFits(s)
  {
    hide Scan, Json, Printable, ParseName, ParseSize, ReadRecords, Fold;
    LoadIsFold(file);
    FoldMetasFit(START, ReadRecords(file, 8));
    var metas := Load(file).metas;
    var before := metas[..|metas| - 1];
    JsonRoundTrip(name, size, NameOf(before, image), SizeOf(before));
    assert |Json(name, size)| <= META_MAX;
    EscapePrintable(name);
    SameJson(Printable(name), name, size);
  }

  lemma SameJson(a: seq<byte>, b: seq<byte>, size: nat)
    requires Escape(a) == Escape(b)
    ensures Json(a, size) == Json(b, size)
  {
  }

  // ----------------------------------------------------------- the sync that loses it

  function Tight(base: seq<byte>, image: seq<byte>): (s: Store)
    requires |base| == BLOCK
    ensures Valid(s) && s.writable && s.base == base && s.name == Letters(LONG) && Size(s) == BLOCK
    ensures s.index.Keys == {0} && s.dead == 255 && s.dirty == map[] && s.file.Some?
  {
    TightOpens(base, image);
    Open(base, image, true, Some(TightFile())).value
  }

  lemma TightOpens(base: seq<byte>, image: seq<byte>)
    requires |base| == BLOCK
    ensures var o := Open(base, image, true, Some(TightFile()));
            o.Some? && Valid(o.value) && o.value.writable && o.value.base == base
            && o.value.name == Letters(LONG) && Size(o.value) == BLOCK
            && o.value.index.Keys == {0} && o.value.dead == 255 && o.value.dirty == map[]
            && o.value.file.Some?
  {
    hide Scan, Parse, TightFile, TightMeta, Encode, ParseName, ParseSize, Letters;
    TightLoads();
    OpenAgrees(base, image, true, Some(TightFile()));
    TightReads(image);
    MetasOfOne(TightMeta(), image);
  }

  lemma MetasOfOne(json: seq<byte>, image: seq<byte>)
    ensures NameOf([json], image) == ParseName(json, image) && SizeOf([json]) == ParseSize(json, 0)
  {
    hide ParseName, ParseSize;
    assert [json][..0] == [];
  }

  lemma OnePage(s: Store)
    requires Valid(s) && Size(s) == BLOCK && s.dirty == map[]
    ensures Put(s, 0, [1]).dirty.Keys == {0}
  {
    hide Valid, PageAt, Size;
    assert InBlock(0, 1) == 1;
    assert [1][1..] == [] && [1][..1] == [1];
  }

  lemma SyncedCounts(w: Store)
    requires w.file.Some? && w.dirty.Keys == {0} && w.index.Keys == {0} && w.dead == 255
    ensures WantsCompaction(Synced(w)) && Synced(w).index != map[]
  {
    hide Batch, Placed;
    assert w.dirty.Keys * w.index.Keys == {0};
    var t := Synced(w);
    assert t.index.Keys == {0};
    assert |t.index| == |t.index.Keys|;
  }

  lemma RewrittenLost(t: Store)
    requires Valid(t) && t.file.Some? && t.index != map[] && t.name == Letters(LONG) && Size(t) == BLOCK
    ensures var r := Rewritten(t);
            Valid(r) && View(r) == View(t) && r.file.Some? && Load(r.file.value) == Load(HEADER)
            && HasHeader(r.file.value)
  {
    hide Scan, Json, View, Valid, Letters, HasHeader, LiveRecords, Placed;
    NeverFits(t);
    CompactionKeepsIffMetaFits(t, t.name);
    RewrittenView(t);
    HeaderKept(HEADER, Encode(LiveRecords(t)));
  }

  lemma SyncCompacts(w: Store)
    requires Valid(w) && w.file.Some? && w.dirty.Keys == {0} && w.index.Keys == {0} && w.dead == 255
    requires w.name == Letters(LONG) && Size(w) == BLOCK
    ensures Valid(Synced(w)) && Sync(w, Io(true, true, true)) == (Rewritten(Synced(w)), true)
    ensures var t := Rewritten(Synced(w));
            Valid(t) && View(t) == View(w) && t.file.Some? && Load(t.file.value) == Load(HEADER)
            && HasHeader(t.file.value)
  {
    hide Scan, View, Valid, Batch, Placed, Letters, HasHeader, WantsCompaction, Rewritten;
    SyncedValid(w);
    SyncedView(w);
    SyncedCounts(w);
    RewrittenLost(Synced(w));
  }

  lemma ImageOnly(s: Store)
    requires Valid(s) && s.index == map[] && s.dirty == map[] && Size(s) == |s.base|
    ensures View(s) == s.base
  {
    forall i | 0 <= i < |s.base|
      ensures View(s)[i] == s.base[i]
    {
      assert PageAt(s, i / 4096) == BasePage(s.base, i / 4096);
    }
  }

  lemma LostIsImage(base: seq<byte>, image: seq<byte>, file: seq<byte>)
    requires |base| == BLOCK && HasHeader(file) && Load(file) == Load(HEADER)
    ensures var o := Open(base, image, true, Some(file)); o.Some? && Valid(o.value) && View(o.value) == base
  {
    hide Scan, Json, View;
    HeaderWhole();
    OpenAgrees(base, image, true, Some(file));
    var o := Open(base, image, true, Some(file)).value;
    ImageOnly(o);
  }

  /** T reads as if 1 had been written to the first byte, its file as nothing
      ever written. */
  predicate Lost(t: Store, base: seq<byte>, image: seq<byte>) {
    && Valid(t) && View(t) != [] && View(t)[0] == 1
    && t.file.Some? && Load(t.file.value) == Load(HEADER)
    && (var o := Open(base, image, true, t.file);
        o.Some? && Valid(o.value) && View(o.value) == base)
  }

  /** One byte written to that disk and synced: the sync answers true and the
      byte reads back, but the file now loads to nothing and opened again the
      disk is its image. */
  lemma CompactionLosesAll(base: seq<byte>, image: seq<byte>)
    requires |base| == BLOCK
    ensures var (t, ok) := Sync(Put(Tight(base, image), 0, [1]), Io(true, true, true));
            ok && Lost(t, base, image)
  {
    hide Scan, Tight, Json, View, Splice, Synced, Rewritten, HasHeader;
    var s := Tight(base, image);
    var w := Put(s, 0, [1]);
    PutView(s, 0, [1]);
    PutFrame(s, 0, [1]);
    OnePage(s);
    SyncCompacts(w);
    LostIsImage(base, image, Rewritten(Synced(w)).file.value);
  }
}
