/**
 * Page I/O of the storage engine's disk manager.
 *
 * The database file is modelled as the sequence of its bytes. Page `n` of a
 * file with page size `pageSize` lives at byte offset `n * pageSize`; reading
 * a page reads exactly `pageSize` bytes there, and writing a page overwrites
 * the bytes at that offset, growing the file (with zero bytes in any gap)
 * when the page lies past the current end.
 */
module PageIo {
  import opened Wrappers

  /** Page numbers (Go `pgnum`, a uint64). */
  type PageNum = nat

  /** I/O failures: a read that hits end of file, a write the file cannot take. */
  datatype IoError = ShortRead | WriteRefused | StatFailed

  function Max(a: nat, b: nat): nat { if a < b then b else a }

  /** A freshly made Go byte slice: `n` zero bytes. */
  function Zeros(n: nat): (z: seq<bv8>)
    ensures |z| == n
    ensures forall i :: 0 <= i < n ==> z[i] == 0
  {
    seq(n, _ => 0 as bv8)
  }

  /**
   * The file after `WriteAt(data, off)`: the bytes at `off` are replaced by
   * `data`, everything else keeps its value, and a gap between the old end
   * and `off` reads as zeros. An empty write leaves the file as it is, even
   * past its end.
   */
  function WriteAt(file: seq<bv8>, data: seq<bv8>, off: nat): (f: seq<bv8>)
    ensures |f| == if data == [] then |file| else Max(|file|, off + |data|)
    ensures forall i :: 0 <= i < |data| ==> f[off + i] == data[i]
    ensures forall i :: 0 <= i < |file| && (i < off || off + |data| <= i) ==> f[i] == file[i]
    ensures data != [] ==> forall i :: |file| <= i < off ==> f[i] == 0
  {
    if data == [] then file
    else if off + |data| <= |file| then file[..off] + data + file[off + |data|..]
    else if off <= |file| then file[..off] + data
    else file + Zeros(off - |file|) + data
  }

  /** `ReadAt` of `n` bytes at `off`: fails unless all `n` bytes exist; reading nothing always succeeds. */
  function ReadAt(file: seq<bv8>, off: nat, n: nat): (r: Result<seq<bv8>, IoError>)
    ensures r.Ok? <==> n == 0 || off + n <= |file|
    ensures r.Ok? ==> |r.value| == n && forall i :: 0 <= i < n ==> r.value[i] == file[off + i]
    ensures r.Err? ==> r.error == ShortRead
  {
    if n == 0 then Ok([])
    else if off + n <= |file| then Ok(file[off..off + n]) else Err(ShortRead)
  }

  /** Byte offset of a page. */
  function PageOffset(pageNum: PageNum, pageSize: nat): nat
  {
    pageNum * pageSize
  }

  /** Bytes of page `pageNum` when the whole page is present in the file. */
  function PageBytes(file: seq<bv8>, pageNum: PageNum, pageSize: nat): Result<seq<bv8>, IoError>
  {
    ReadAt(file, PageOffset(pageNum, pageSize), pageSize)
  }

  /** A lower page ends at or before the start of a higher one. */
  lemma {:induction false} PageRangesDisjoint(p: PageNum, q: PageNum, pageSize: nat)
    requires p < q
    ensures PageOffset(p, pageSize) + pageSize <= PageOffset(q, pageSize)
  {
    var d := q - p;
    assert d >= 1;
    assert d * pageSize >= pageSize by {
      assert d * pageSize == (d - 1) * pageSize + pageSize;
      assert (d - 1) * pageSize >= 0;
    }
    calc {
      PageOffset(q, pageSize);
      == (p + d) * pageSize;
      == p * pageSize + d * pageSize;
    }
  }

  /** Writing a whole page and reading the same page back returns what was written. */
  lemma ReadBackWrittenPage(file: seq<bv8>, data: seq<bv8>, p: PageNum, pageSize: nat)
    requires |data| == pageSize
    ensures PageBytes(WriteAt(file, data, PageOffset(p, pageSize)), p, pageSize) == Ok(data)
  {
    var after := WriteAt(file, data, PageOffset(p, pageSize));
    var r := PageBytes(after, p, pageSize);
    assert r.Ok?;
    assert r.value == data by {
      forall i | 0 <= i < pageSize ensures r.value[i] == data[i] {
        assert after[PageOffset(p, pageSize) + i] == data[i];
      }
    }
  }

  /**
   * Writing one page at page `p` leaves every other page that was fully
   * present unchanged; a write of any length leaves the pages below `p`.
   */
  lemma WriteKeepsOtherPages(file: seq<bv8>, data: seq<bv8>, p: PageNum, q: PageNum, pageSize: nat)
    requires p != q && (|data| == pageSize || q < p)
    requires PageBytes(file, q, pageSize).Ok?
    ensures PageBytes(WriteAt(file, data, PageOffset(p, pageSize)), q, pageSize) == PageBytes(file, q, pageSize)
  {
    var after := WriteAt(file, data, PageOffset(p, pageSize));
    if p < q { PageRangesDisjoint(p, q, pageSize); } else { PageRangesDisjoint(q, p, pageSize); }
    var before := PageBytes(file, q, pageSize);
    var now := PageBytes(after, q, pageSize);
    assert now.Ok?;
    assert now.value == before.value by {
      forall i | 0 <= i < pageSize ensures now.value[i] == before.value[i] {
        assert after[PageOffset(q, pageSize) + i] == file[PageOffset(q, pageSize) + i];
      }
    }
  }

  /** A page below the written one that lay past the old end of file now reads as zeros. */
  lemma SkippedPagesReadAsZeros(file: seq<bv8>, data: seq<bv8>, p: PageNum, q: PageNum, pageSize: nat)
    requires q < p && |file| <= PageOffset(q, pageSize) && data != []
    ensures PageBytes(WriteAt(file, data, PageOffset(p, pageSize)), q, pageSize) == Ok(Zeros(pageSize))
  {
    var after := WriteAt(file, data, PageOffset(p, pageSize));
    PageRangesDisjoint(q, p, pageSize);
    var now := PageBytes(after, q, pageSize);
    assert now.Ok?;
    assert now.value == Zeros(pageSize) by {
      forall i | 0 <= i < pageSize ensures now.value[i] == 0 {
        assert after[PageOffset(q, pageSize) + i] == 0;
      }
    }
  }
}
