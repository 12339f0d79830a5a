/**
 * The storage engine's disk manager: page bookkeeping over the database file,
 * the fill thresholds that drive node splits and merges, node, freelist and
 * meta page writes, and the bootstrap of a new database file.
 *
 * The byte layouts of nodes, the freelist and the meta record belong to the
 * node, freelist and meta files of the engine; they enter here as an abstract
 * `Format` fixed when the disk manager is opened.
 */
module Storage {
  import opened Wrappers
  import opened PageIo
  import opened NodeFill

  /** The meta record always lives in page 0. */
  const MetaPageNum: PageNum := 0

  /** Open-time options: page size and the fill fractions of a page. */
  datatype Options = Options(pageSize: nat, minFillPercent: real, maxFillPercent: real)

  /** The meta record: page of the collections root and page of the freelist. */
  datatype Meta = Meta(root: PageNum, freelistPage: PageNum)

  function EmptyMeta(): Meta { Meta(0, 0) }

  /** The free-page allocator's state: highest page handed out and the released pages. */
  datatype Freelist = Freelist(maxPage: PageNum, releasedPages: seq<PageNum>)

  function NewFreelist(): Freelist { Freelist(MetaPageNum, []) }

  /** Next page handed out (the last released one, else a new page) and the freelist afterwards. */
  function NextPage(fl: Freelist): (PageNum, Freelist)
  {
    var released := fl.releasedPages;
    if released != [] then (released[|released| - 1], fl.(releasedPages := released[..|released| - 1]))
    else (fl.maxPage + 1, fl.(maxPage := fl.maxPage + 1))
  }

  function Release(fl: Freelist, pageNum: PageNum): Freelist
  {
    fl.(releasedPages := fl.releasedPages + [pageNum])
  }

  /** What a node serializes: its items and its child page numbers. */
  datatype NodeImage = NodeImage(items: seq<Item>, childNodes: seq<PageNum>)

  /**
   * The on-disk format: element and node sizes, and the serializers, each of
   * which writes its record into the page buffer it is given.
   */
  datatype RawFormat = RawFormat(
    elementSize: Item -> nat,
    nodeSize: NodeImage -> nat,
    serializeNode: (NodeImage, seq<bv8>) -> seq<bv8>,
    deserializeNode: seq<bv8> -> NodeImage,
    serializeMeta: (Meta, seq<bv8>) -> seq<bv8>,
    deserializeMeta: seq<bv8> -> Meta,
    serializeFreelist: (Freelist, seq<bv8>) -> seq<bv8>,
    deserializeFreelist: seq<bv8> -> Freelist)

  /**
   * The meta and freelist serializers fill the page buffer in place, so what
   * reaches the disk is always exactly that buffer: as long as the buffer.
   */
  ghost predicate InPlaceRecords(f: RawFormat)
  {
    && (forall m, buf :: |f.serializeMeta(m, buf)| == |buf|)
    && (forall fl, buf :: |f.serializeFreelist(fl, buf)| == |buf|)
  }

  type Format = f: RawFormat | InPlaceRecords(f)
    witness RawFormat(_ => 0, _ => 0, (n, buf) => buf, _ => NodeImage([], []),
                      (m, buf) => buf, _ => EmptyMeta(), (fl, buf) => buf, _ => NewFreelist())

  /**
   * Whether the file takes a write of `len` bytes at `off`: an empty write
   * touches nothing; any other must end within the maximum file size.
   */
  predicate WriteFits(off: nat, len: nat, maxFileSize: nat)
  {
    len == 0 || off + len <= maxFileSize
  }

  /** A page buffer and the page number it belongs to. */
  datatype Page = Page(num: PageNum, data: seq<bv8>)

  /** What a stat of the database path finds. */
  datatype FileStat = Missing | Present(contents: seq<bv8>) | Unreadable

  /** An in-memory B+Tree node; page number 0 means "not yet written". */
  class Node {
    var pageNum: PageNum
    var items: seq<Item>
    var childNodes: seq<PageNum>

    constructor ForSerialization(items: seq<Item>, childNodes: seq<PageNum>)
      ensures this.pageNum == 0 && this.items == items && this.childNodes == childNodes
    {
      this.pageNum := 0;
      this.items := items;
      this.childNodes := childNodes;
    }

    constructor Empty()
      ensures pageNum == 0 && items == [] && childNodes == []
    {
      pageNum := 0;
      items := [];
      childNodes := [];
    }

    function Image(): NodeImage
      reads this
    {
      NodeImage(items, childNodes)
    }
  }

  class DiskManager {
    const pageSize: nat
    const minFillPercent: real
    const maxFillPercent: real
    const format: Format
    /** Largest size the file may grow to; a write reaching past it fails. */
    const maxFileSize: nat

    /** Contents of the database file. */
    var file: seq<bv8>
    var meta: Meta
    var freelist: Freelist

    constructor (options: Options, format: Format, maxFileSize: nat, file: seq<bv8>)
      ensures pageSize == options.pageSize
      ensures minFillPercent == options.minFillPercent && maxFillPercent == options.maxFillPercent
      ensures this.format == format && this.maxFileSize == maxFileSize && this.file == file
      ensures meta == EmptyMeta() && freelist == NewFreelist()
    {
      pageSize := options.pageSize;
      minFillPercent := options.minFillPercent;
      maxFillPercent := options.maxFillPercent;
      this.format := format;
      this.maxFileSize := maxFileSize;
      this.file := file;
      meta := EmptyMeta();
      freelist := NewFreelist();
    }

    /** Bytes a node must exceed not to be underpopulated: the minimum fill fraction of a page. */
    function MinThreshold(): (t: real)
      ensures 0.0 <= minFillPercent ==> 0.0 <= t
      ensures minFillPercent <= maxFillPercent ==> t <= maxFillPercent * pageSize as real
    {
      assert (maxFillPercent - minFillPercent) * pageSize as real
             == maxFillPercent * pageSize as real - minFillPercent * pageSize as real;
      minFillPercent * pageSize as real
    }

    /** Bytes a node may reach without being overpopulated: the maximum fill fraction of a page. */
    function MaxThreshold(): (t: real)
      ensures 0.0 <= maxFillPercent ==> 0.0 <= t
      ensures maxFillPercent <= 1.0 ==> t <= pageSize as real
    {
      assert (1.0 - maxFillPercent) * pageSize as real == pageSize as real - maxFillPercent * pageSize as real;
      maxFillPercent * pageSize as real
    }

    /**
     * Where a node may be split to spare items: the least cut whose prefix
     * (header included) exceeds the minimum threshold and leaves at least one
     * item on the right, or -1 when there is none.
     */
    method GetSplitIndex(node: Node) returns (r: int)
      ensures r == -1 || 1 <= r <= |node.items| - 1
      ensures |node.items| <= 1 ==> r == -1
      ensures IsSplitIndex(node.items, format.elementSize, MinThreshold(), r)
    {
      var size := NodeHeaderSize;
      var i := 0;
      while i < |node.items|
        invariant 0 <= i <= |node.items|
        invariant size == PrefixSize(node.items, format.elementSize, i)
        invariant forall j :: 1 <= j <= i && j < |node.items| ==>
                    PrefixSize(node.items, format.elementSize, j) as real <= MinThreshold()
      {
        PrefixSizeStep(node.items, format.elementSize, i);
        size := size + format.elementSize(node.items[i]);
        if size as real > MinThreshold() && i < |node.items| - 1 {
          return i + 1;
        }
        i := i + 1;
      }
      return -1;
    }

    /** A node too big for one page's maximum fill, to be split. */
    predicate IsOverPopulated(node: Node)
      reads node
    {
      format.nodeSize(node.Image()) as real > MaxThreshold()
    }

    /** A node below one page's minimum fill, to be merged or refilled. */
    predicate IsUnderPopulated(node: Node)
      reads node
    {
      format.nodeSize(node.Image()) as real < MinThreshold()
    }

    /** With the minimum fill at most the maximum fill, no node is both over- and underpopulated. */
    lemma NeverOverAndUnderPopulated(node: Node)
      requires minFillPercent <= maxFillPercent
      ensures !(IsOverPopulated(node) && IsUnderPopulated(node))
    {
      assert MinThreshold() <= MaxThreshold() by {
        assert MaxThreshold() - MinThreshold() == (maxFillPercent - minFillPercent) * pageSize as real;
      }
    }

    /** A zero-filled buffer of one page. */
    function AllocateEmptyPage(): (p: Page)
      ensures |p.data| == pageSize
      ensures forall i :: 0 <= i < pageSize ==> p.data[i] == 0
    {
      Page(0, Zeros(pageSize))
    }

    /** Reads page `pageNum` in full; the returned buffer keeps page number 0. */
    method ReadPage(pageNum: PageNum) returns (r: Result<Page, IoError>)
      ensures r.Ok? <==> PageOffset(pageNum, pageSize) + pageSize <= |file|
      ensures r.Ok? ==> r.value.num == 0 && |r.value.data| == pageSize
      ensures r.Ok? ==> forall i :: 0 <= i < pageSize ==> r.value.data[i] == file[PageOffset(pageNum, pageSize) + i]
      ensures r.Err? ==> r.error == ShortRead
    {
      var p := AllocateEmptyPage();
      var offset := PageOffset(pageNum, pageSize);
      var read := ReadAt(file, offset, |p.data|);
      if read.Err? {
        return Err(read.error);
      }
      p := p.(data := read.value);
      return Ok(p);
    }

    /** Writes a page buffer at its page's offset. */
    method WritePage(p: Page) returns (err: Option<IoError>)
      modifies this`file
      ensures WriteFits(PageOffset(p.num, pageSize), |p.data|, maxFileSize) ==>
                err == None && file == WriteAt(old(file), p.data, PageOffset(p.num, pageSize))
      ensures !WriteFits(PageOffset(p.num, pageSize), |p.data|, maxFileSize) ==>
                err == Some(WriteRefused) && file == old(file)
    {
      var offset := PageOffset(p.num, pageSize);
      if !WriteFits(offset, |p.data|, maxFileSize) {
        return Some(WriteRefused);
      }
      file := WriteAt(file, p.data, offset);
      return None;
    }

    /** Reads page `pageNum` and decodes it as a node numbered `pageNum`. */
    method GetNode(pageNum: PageNum) returns (r: Result<Node, IoError>)
      ensures r.Ok? <==> PageBytes(file, pageNum, pageSize).Ok?
      ensures r.Ok? ==> fresh(r.value) && r.value.pageNum == pageNum
      ensures r.Ok? ==> r.value.Image() == format.deserializeNode(PageBytes(file, pageNum, pageSize).value)
      ensures r.Err? ==> r.error == ShortRead
    {
      var p := ReadPage(pageNum);
      if p.Err? {
        return Err(p.error);
      }
      assert p.value.data == PageBytes(file, pageNum, pageSize).value;
      var node := new Node.Empty();
      var image := format.deserializeNode(p.value.data);
      node.items, node.childNodes := image.items, image.childNodes;
      node.pageNum := pageNum;
      return Ok(node);
    }

    /** Hands out the next page number from the freelist. */
    method GetNextPage() returns (pageNum: PageNum)
      modifies this`freelist
      ensures (pageNum, freelist) == NextPage(old(freelist))
    {
      var next := NextPage(freelist);
      pageNum, freelist := next.0, next.1;
    }

    /** Returns a page number to the freelist. */
    method ReleasePage(pageNum: PageNum)
      modifies this`freelist
      ensures freelist == Release(old(freelist), pageNum)
    {
      freelist := Release(freelist, pageNum);
    }

    /**
     * Writes a node: a node numbered 0 first gets a page from the allocator
     * (and keeps it even if the write then fails); any other node is written
     * back in place.
     */
    method WriteNode(n: Node) returns (r: Result<Node, IoError>)
      modifies this`file, this`freelist, n`pageNum
      ensures old(n.pageNum) == 0 ==> (n.pageNum, freelist) == NextPage(old(freelist))
      ensures old(n.pageNum) != 0 ==> n.pageNum == old(n.pageNum) && freelist == old(freelist)
      ensures var data := format.serializeNode(n.Image(), Zeros(pageSize));
              var offset := PageOffset(n.pageNum, pageSize);
              if WriteFits(offset, |data|, maxFileSize) then r == Ok(n) && file == WriteAt(old(file), data, offset)
              else r == Err(WriteRefused) && file == old(file)
    {
      var p := AllocateEmptyPage();
      if n.pageNum == 0 {
        var num := GetNextPage();
        p := p.(num := num);
        n.pageNum := num;
      } else {
        p := p.(num := n.pageNum);
      }
      p := p.(data := format.serializeNode(n.Image(), p.data));
      var err := WritePage(p);
      if err.Some? {
        return Err(err.value);
      }
      return Ok(n);
    }

    /** Deleting a node only releases its page. */
    method DeleteNode(pageNum: PageNum)
      modifies this`freelist
      ensures freelist == Release(old(freelist), pageNum)
    {
      ReleasePage(pageNum);
    }

    /** Reads and decodes the freelist page named by the meta record. */
    method ReadFreelist() returns (r: Result<Freelist, IoError>)
      ensures r.Ok? <==> PageBytes(file, meta.freelistPage, pageSize).Ok?
      ensures r.Ok? ==> r.value == format.deserializeFreelist(PageBytes(file, meta.freelistPage, pageSize).value)
    {
      var p := ReadPage(meta.freelistPage);
      if p.Err? {
        return Err(p.error);
      }
      assert p.value.data == PageBytes(file, meta.freelistPage, pageSize).value;
      return Ok(format.deserializeFreelist(p.value.data));
    }

    /** Writes the freelist to its page; the freelist page number is unchanged. */
    method WriteFreelist() returns (r: Result<Page, IoError>)
      modifies this`file, this`meta
      ensures meta == old(meta)
      ensures var data := format.serializeFreelist(freelist, Zeros(pageSize));
              var offset := PageOffset(meta.freelistPage, pageSize);
              if WriteFits(offset, |data|, maxFileSize)
              then r == Ok(Page(meta.freelistPage, data)) && file == WriteAt(old(file), data, offset)
              else r == Err(WriteRefused) && file == old(file)
      ensures r.Ok? ==> |r.value.data| == pageSize && PageBytes(file, meta.freelistPage, pageSize) == Ok(r.value.data)
      ensures forall q :: q != meta.freelistPage && PageBytes(old(file), q, pageSize).Ok? ==>
                PageBytes(file, q, pageSize) == PageBytes(old(file), q, pageSize)
    {
      var p := AllocateEmptyPage();
      p := p.(num := meta.freelistPage);
      p := p.(data := format.serializeFreelist(freelist, p.data));
      var before := file;
      var err := WritePage(p);
      if err.None? {
        ReadBackWrittenPage(before, p.data, p.num, pageSize);
        forall q | q != p.num && PageBytes(before, q, pageSize).Ok?
          ensures PageBytes(file, q, pageSize) == PageBytes(before, q, pageSize)
        {
          WriteKeepsOtherPages(before, p.data, p.num, q, pageSize);
        }
      }
      if err.Some? {
        return Err(err.value);
      }
      meta := meta.(freelistPage := p.num);
      return Ok(p);
    }

    /** Writes a meta record to the meta page. */
    method WriteMeta(m: Meta) returns (r: Result<Page, IoError>)
      modifies this`file
      ensures var data := format.serializeMeta(m, Zeros(pageSize));
              if WriteFits(PageOffset(MetaPageNum, pageSize), |data|, maxFileSize)
              then r == Ok(Page(MetaPageNum, data)) && file == WriteAt(old(file), data, PageOffset(MetaPageNum, pageSize))
              else r == Err(WriteRefused) && file == old(file)
      ensures r.Ok? ==> |r.value.data| == pageSize && PageBytes(file, MetaPageNum, pageSize) == Ok(r.value.data)
      ensures forall q :: q != MetaPageNum && PageBytes(old(file), q, pageSize).Ok? ==>
                PageBytes(file, q, pageSize) == PageBytes(old(file), q, pageSize)
    {
      var p := AllocateEmptyPage();
      p := p.(num := MetaPageNum);
      p := p.(data := format.serializeMeta(m, p.data));
      var before := file;
      var err := WritePage(p);
      if err.None? {
        ReadBackWrittenPage(before, p.data, p.num, pageSize);
        forall q | q != p.num && PageBytes(before, q, pageSize).Ok?
          ensures PageBytes(file, q, pageSize) == PageBytes(before, q, pageSize)
        {
          WriteKeepsOtherPages(before, p.data, p.num, q, pageSize);
        }
      }
      if err.Some? {
        return Err(err.value);
      }
      return Ok(p);
    }

    /** Reads and decodes the meta page. */
    method ReadMeta() returns (r: Result<Meta, IoError>)
      ensures r.Ok? <==> PageBytes(file, MetaPageNum, pageSize).Ok?
      ensures r.Ok? ==> r.value == format.deserializeMeta(PageBytes(file, MetaPageNum, pageSize).value)
    {
      var p := ReadPage(MetaPageNum);
      if p.Err? {
        return Err(p.error);
      }
      assert p.value.data == PageBytes(file, MetaPageNum, pageSize).value;
      return Ok(format.deserializeMeta(p.value.data));
    }
  }

  /** Record written to page `pageNum` as a whole page buffer of `pageSize` zeros. */
  function FreelistPageData(format: Format, fl: Freelist, pageSize: nat): seq<bv8>
  {
    format.serializeFreelist(fl, Zeros(pageSize))
  }

  function EmptyRootData(format: Format, pageSize: nat): seq<bv8>
  {
    format.serializeNode(NodeImage([], []), Zeros(pageSize))
  }

  function MetaData(format: Format, m: Meta, pageSize: nat): seq<bv8>
  {
    format.serializeMeta(m, Zeros(pageSize))
  }

  /**
   * The file a successful bootstrap leaves: the freelist (holding page 1 as
   * its highest page) at page 1, then the empty collections root at page 2,
   * then the meta record at page 0.
   */
  function BootstrapImage(format: Format, pageSize: nat): seq<bv8>
  {
    var f1 := WriteAt([], FreelistPageData(format, Freelist(1, []), pageSize), PageOffset(1, pageSize));
    var f2 := WriteAt(f1, EmptyRootData(format, pageSize), PageOffset(2, pageSize));
    WriteAt(f2, MetaData(format, Meta(2, 1), pageSize), PageOffset(MetaPageNum, pageSize))
  }

  /** The freelist and root writes of a bootstrap stay within the maximum file size (the meta write then does too). */
  predicate BootstrapFits(format: Format, pageSize: nat, maxFileSize: nat)
  {
    && WriteFits(PageOffset(1, pageSize), |FreelistPageData(format, Freelist(1, []), pageSize)|, maxFileSize)
    && WriteFits(PageOffset(2, pageSize), |EmptyRootData(format, pageSize)|, maxFileSize)
  }

  /**
   * As bootstrapped, the freelist page records page 1 as the highest page
   * handed out, although page 2 already holds the collections root; a
   * freelist decoded from it hands out the root's page next.
   */
  lemma BootstrapFreelistOmitsRoot(format: Format, pageSize: nat)
    requires format.deserializeFreelist(FreelistPageData(format, Freelist(1, []), pageSize)) == Freelist(1, [])
    ensures var stored := PageBytes(BootstrapImage(format, pageSize), 1, pageSize);
            stored.Ok? && NextPage(format.deserializeFreelist(stored.value)).0 == 2
  {
    var d1 := FreelistPageData(format, Freelist(1, []), pageSize);
    var f1 := WriteAt([], d1, PageOffset(1, pageSize));
    var f2 := WriteAt(f1, EmptyRootData(format, pageSize), PageOffset(2, pageSize));
    ReadBackWrittenPage([], d1, 1, pageSize);
    WriteKeepsOtherPages(f1, EmptyRootData(format, pageSize), 2, 1, pageSize);
    WriteKeepsOtherPages(f2, MetaData(format, Meta(2, 1), pageSize), MetaPageNum, 1, pageSize);
  }

  /**
   * Bootstrap with the freelist written after the root's page is allocated:
   * the freelist (highest page 2) at page 1, the empty root at page 2, meta
   * at page 0.
   */
  function CorrectedBootstrapImage(format: Format, pageSize: nat): seq<bv8>
  {
    var f1 := WriteAt([], EmptyRootData(format, pageSize), PageOffset(2, pageSize));
    var f2 := WriteAt(f1, FreelistPageData(format, Freelist(2, []), pageSize), PageOffset(1, pageSize));
    WriteAt(f2, MetaData(format, Meta(2, 1), pageSize), PageOffset(MetaPageNum, pageSize))
  }

  /**
   * In the corrected bootstrap the persisted freelist accounts for every page
   * in use: the next page it hands out is none of meta, freelist and root.
   */
  lemma CorrectedBootstrapFreelistCoversRoot(format: Format, pageSize: nat)
    requires format.deserializeFreelist(FreelistPageData(format, Freelist(2, []), pageSize)) == Freelist(2, [])
    ensures var stored := PageBytes(CorrectedBootstrapImage(format, pageSize), 1, pageSize);
            && stored.Ok?
            && var next := NextPage(format.deserializeFreelist(stored.value)).0;
               next != MetaPageNum && next != 1 && next != 2
  {
    var d := FreelistPageData(format, Freelist(2, []), pageSize);
    var f1 := WriteAt([], EmptyRootData(format, pageSize), PageOffset(2, pageSize));
    var f2 := WriteAt(f1, d, PageOffset(1, pageSize));
    ReadBackWrittenPage(f1, d, 1, pageSize);
    WriteKeepsOtherPages(f2, MetaData(format, Meta(2, 1), pageSize), MetaPageNum, 1, pageSize);
  }

  /**
   * Opens a database file. A missing file is bootstrapped: the freelist gets
   * the first page and is written, the empty collections root gets the next
   * page and is written, and the meta record naming both is written last. An
   * existing file has its meta page and then its freelist page read.
   */
  method NewDiskManager(stat: FileStat, options: Options, format: Format, maxFileSize: nat)
    returns (r: Result<DiskManager, IoError>)
    requires options.pageSize > 0
    ensures r.Ok? ==> fresh(r.value) && r.value.pageSize == options.pageSize
    ensures r.Ok? ==> r.value.minFillPercent == options.minFillPercent && r.value.maxFillPercent == options.maxFillPercent
    ensures r.Ok? ==> r.value.format == format && r.value.maxFileSize == maxFileSize
    ensures stat.Unreadable? ==> r == Err(StatFailed)
    ensures stat.Missing? ==> (r.Ok? <==> BootstrapFits(format, options.pageSize, maxFileSize))
    ensures stat.Missing? && r.Err? ==> r.error == WriteRefused
    ensures stat.Missing? && r.Ok? ==>
              && r.value.meta == Meta(2, 1)
              && r.value.freelist == Freelist(2, [])
              && r.value.file == BootstrapImage(format, options.pageSize)
    ensures stat.Present? ==>
              var metaPage := PageBytes(stat.contents, MetaPageNum, options.pageSize);
              r.Ok? <==> metaPage.Ok? &&
                         PageBytes(stat.contents, format.deserializeMeta(metaPage.value).freelistPage, options.pageSize).Ok?
    ensures stat.Present? && r.Ok? ==>
              && r.value.file == stat.contents
              && r.value.meta == format.deserializeMeta(PageBytes(stat.contents, MetaPageNum, options.pageSize).value)
              && r.value.freelist ==
                 format.deserializeFreelist(PageBytes(stat.contents, r.value.meta.freelistPage, options.pageSize).value)
  {
    if stat.Unreadable? {
      return Err(StatFailed);
    }
    if stat.Missing? {
      var dm := new DiskManager(options, format, maxFileSize, []);
      dm.freelist := NewFreelist();
      var freelistPage := dm.GetNextPage();
      dm.meta := dm.meta.(freelistPage := freelistPage);
      var written := dm.WriteFreelist();
      if written.Err? {
        return Err(written.error);
      }
      var collectionsNode := new Node.ForSerialization([], []);
      var node := dm.WriteNode(collectionsNode);
      if node.Err? {
        return Err(node.error);
      }
      dm.meta := dm.meta.(root := collectionsNode.pageNum);
      written := dm.WriteMeta(dm.meta);
      // The meta page lies below the freelist page just written, so this write cannot be refused.
      assert written.Ok?;
      return Ok(dm);
    }
    var dm := new DiskManager(options, format, maxFileSize, stat.contents);
    var meta := dm.ReadMeta();
    if meta.Err? {
      return Err(meta.error);
    }
    dm.meta := meta.value;
    var freelist := dm.ReadFreelist();
    if freelist.Err? {
      return Err(freelist.error);
    }
    dm.freelist := freelist.value;
    return Ok(dm);
  }
}
