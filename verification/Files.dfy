/** The mapping of a torrent's byte range onto a list of files (src/torrent/torrent_data.c). */
module Files {
  import opened Bytes
  import Slices

  /** A file occupies [offset, offset + size) of the torrent; its bytes on disk are `contents`. */
  datatype FileInfo = FileInfo(offset: nat, size: nat, contents: seq<byte>)

  function TotalSize(files: seq<FileInfo>): nat {
    if files == [] then 0 else files[0].size + TotalSize(files[1..])
  }

  /** The torrent that the files make up when laid end to end. */
  function Concat(files: seq<FileInfo>): seq<byte> {
    if files == [] then [] else files[0].contents + Concat(files[1..])
  }

  /** Each file starts where the one before it ends, the first at `start`. */
  ghost predicate Contiguous(files: seq<FileInfo>, start: nat) {
    files != [] ==>
      && files[0].offset == start
      && |files[0].contents| == files[0].size
      && Contiguous(files[1..], start + files[0].size)
  }

  /** `s` with `data` written over it from position `at`, cut off at the end of `s`. */
  function Splat(s: seq<byte>, at: nat, data: seq<byte>): (r: seq<byte>)
    ensures |r| == |s|
  {
    seq(|s|, i requires 0 <= i < |s| => if at <= i < at + |data| then data[i - at] else s[i])
  }

  /** torrent_data_add_file: the new file goes to the end of the list. */
  method AddFile(files: seq<FileInfo>, filesSize: nat, contents: seq<byte>)
      returns (files': seq<FileInfo>, filesSize': nat)
    requires Contiguous(files, 0) && filesSize == TotalSize(files)
    ensures Contiguous(files', 0) && filesSize' == TotalSize(files')
    ensures Concat(files') == Concat(files) + contents
    ensures |files'| == |files| + 1 && files'[..|files|] == files
  {
    var file := FileInfo(filesSize, |contents|, contents);
    files', filesSize' := files + [file], filesSize + |contents|;
    ContiguousSnoc(files, 0, file);
  }

  lemma ContiguousSnoc(files: seq<FileInfo>, start: nat, file: FileInfo)
    ensures Contiguous(files + [file], start)
       <==> Contiguous(files, start) && file.offset == start + TotalSize(files) && |file.contents| == file.size
    ensures TotalSize(files + [file]) == TotalSize(files) + file.size
    ensures Concat(files + [file]) == Concat(files) + file.contents
  {
    Join(files, [file], start);
  }

  lemma {:induction false} ConcatLength(files: seq<FileInfo>, start: nat)
    requires Contiguous(files, start)
    ensures |Concat(files)| == TotalSize(files)
  {
    if files != [] {
      ConcatLength(files[1..], start + files[0].size);
    }
  }

  /** Two runs laid end to end. */
  lemma {:induction false} Join(front: seq<FileInfo>, back: seq<FileInfo>, start: nat)
    ensures TotalSize(front + back) == TotalSize(front) + TotalSize(back)
    ensures Concat(front + back) == Concat(front) + Concat(back)
    ensures Contiguous(front + back, start)
       <==> Contiguous(front, start) && Contiguous(back, start + TotalSize(front))
  {
    if front == [] {
      assert front + back == back;
    } else {
      assert (front + back)[1..] == front[1..] + back;
      Join(front[1..], back, start + front[0].size);
    }
  }

  lemma SplitAt(files: seq<FileInfo>, start: nat, k: nat)
    requires k <= |files|
    ensures TotalSize(files) == TotalSize(files[..k]) + TotalSize(files[k..])
    ensures Concat(files) == Concat(files[..k]) + Concat(files[k..])
    ensures Contiguous(files, start)
       <==> Contiguous(files[..k], start) && Contiguous(files[k..], start + TotalSize(files[..k]))
  {
    assert files == files[..k] + files[k..];
    Join(files[..k], files[k..], start);
  }

  /** File `k` holds the slice of the torrent that begins after the first `k` files. */
  lemma AtFile(files: seq<FileInfo>, k: nat)
    requires Contiguous(files, 0) && k < |files|
    ensures files[k].offset == TotalSize(files[..k]) && |files[k].contents| == files[k].size
    ensures TotalSize(files[..k + 1]) == files[k].offset + files[k].size <= |Concat(files)| == TotalSize(files)
    ensures files[k].contents == Concat(files)[files[k].offset..files[k].offset + files[k].size]
  {
    hide Contiguous;
    hide TotalSize;
    hide Concat;
    SplitAt(files, 0, k);
    SplitAt(files, 0, k + 1);
    assert files[..k + 1] == files[..k] + [files[k]];
    ContiguousSnoc(files[..k], 0, files[k]);
    ConcatLength(files[..k], 0);
    ConcatLength(files, 0);
  }

  /** The number of bytes of [begin, begin + size) that lie before position `pos`. */
  function Covered(pos: int, begin: nat, size: nat): nat {
    if pos <= begin then 0 else Min(pos - begin, size)
  }

  /** One turn of the scatter loop leaves the file with its slice of the overwritten torrent. */
  lemma WrittenSlice(all: seq<byte>, o: nat, size: nat, begin: nat, piece: seq<byte>)
    requires o + size <= |all|
    ensures var written := Covered(o, begin, |piece|);
            var slice := Splat(all, begin, piece)[o..o + size];
            if o + size >= begin && o <= begin + |piece| then
              && 0 <= begin + written - o <= size
              && var n := Min(size - (begin + written - o), |piece| - written);
              && Covered(o + size, begin, |piece|) == written + n
              && slice == Splat(all[o..o + size], begin + written - o, piece[written..written + n])
            else
              slice == all[o..o + size] && Covered(o + size, begin, |piece|) == written
  {
    var written := Covered(o, begin, |piece|);
    var slice := Splat(all, begin, piece)[o..o + size];
    forall i | 0 <= i < size
      ensures slice[i] == if begin <= o + i < begin + |piece| then piece[o + i - begin] else all[o..o + size][i]
    {
    }
    if o + size >= begin && o <= begin + |piece| {
      var rel, n := begin + written - o, Min(size - (begin + written - o), |piece| - written);
      assert slice == Splat(all[o..o + size], rel, piece[written..written + n]);
    }
  }

  /** After `k` turns of the scatter loop the first `k` files hold their part of the overwritten torrent. */
  ghost predicate Scattered(files: seq<FileInfo>, files': seq<FileInfo>, k: nat, begin: nat, piece: seq<byte>) {
    var target := Splat(Concat(files), begin, piece);
    && k <= |files| == |files'|
    && files'[k..] == files[k..]
    && SameLayout(files, files')
    && TotalSize(files'[..k]) == TotalSize(files[..k]) <= |target|
    && Concat(files'[..k]) == target[..TotalSize(files[..k])]
  }

  ghost predicate SameLayout(files: seq<FileInfo>, files': seq<FileInfo>) {
    && |files'| == |files|
    && forall j :: 0 <= j < |files| ==>
         && files'[j].offset == files[j].offset
         && files'[j].size == files[j].size
         && |files'[j].contents| == |files[j].contents|
  }

  lemma ScatterStep(files: seq<FileInfo>, files': seq<FileInfo>, k: nat, begin: nat, piece: seq<byte>,
                    contents: seq<byte>)
    requires Contiguous(files, 0) && k < |files| && Scattered(files, files', k, begin, piece)
    requires files[k].offset + files[k].size <= |Concat(files)|
    requires contents == Splat(Concat(files), begin, piece)[files[k].offset..files[k].offset + files[k].size]
    ensures Scattered(files, files'[k := files[k].(contents := contents)], k + 1, begin, piece)
  {
    var files'' := files'[k := files[k].(contents := contents)];
    AtFile(files, k);
    ContiguousSnoc(files'[..k], 0, files''[k]);
    assert files''[..k + 1] == files'[..k] + [files''[k]];
    assert files''[k + 1..] == files'[k..][1..] == files[k..][1..] == files[k + 1..];
  }

  lemma SplatSuffix(s: seq<byte>, at: nat, data: seq<byte>, pos: nat)
    requires pos <= |s| && (data == [] || at + |data| <= pos || pos == |s|)
    ensures Splat(s, at, data) == Splat(s, at, data)[..pos] + s[pos..]
  {
  }

  /** When the loop stops, either every file was visited or the whole piece lies in the visited ones. */
  lemma ScatterDone(files: seq<FileInfo>, files': seq<FileInfo>, k: nat, begin: nat, piece: seq<byte>)
    requires Contiguous(files, 0) && Scattered(files, files', k, begin, piece)
    requires k == |files| || piece == [] || begin + |piece| <= TotalSize(files[..k])
    ensures Contiguous(files', 0) && TotalSize(files') == TotalSize(files)
    ensures Concat(files') == Splat(Concat(files), begin, piece)
    ensures SameLayout(files, files')
  {
    LayoutKept(files, files', 0);
    var pos := TotalSize(files[..k]);
    SharedTail(files, files', k);
    SplatSuffix(Concat(files), begin, piece, pos);
  }

  lemma SharedTail(files: seq<FileInfo>, files': seq<FileInfo>, k: nat)
    requires Contiguous(files, 0) && k <= |files| == |files'| && files'[k..] == files[k..]
    ensures TotalSize(files[..k]) <= TotalSize(files) == |Concat(files)|
    ensures k == |files| ==> TotalSize(files[..k]) == TotalSize(files)
    ensures Concat(files') == Concat(files'[..k]) + Concat(files)[TotalSize(files[..k])..]
  {
    SplitAt(files, 0, k);
    SplitAt(files', 0, k);
    ConcatLength(files[..k], 0);
    ConcatLength(files, 0);
    assert k == |files| ==> files[..k] == files;
    assert Concat(files[k..]) == Concat(files)[TotalSize(files[..k])..];
  }

  lemma {:induction false} LayoutKept(files: seq<FileInfo>, files': seq<FileInfo>, start: nat)
    requires Contiguous(files, start) && SameLayout(files, files')
    ensures Contiguous(files', start) && TotalSize(files') == TotalSize(files)
  {
    if files != [] {
      LayoutKept(files[1..], files'[1..], start + files[0].size);
    }
  }

  /** The body of the scatter loop for one file: how much of the piece the file takes, and its new bytes. */
  method ScatterFile(ghost all: seq<byte>, file: FileInfo, begin: nat, piece: seq<byte>, written: nat)
    returns (file': FileInfo, written': nat)
    requires file.offset + file.size <= |all| && file.contents == all[file.offset..file.offset + file.size]
    requires written == Covered(file.offset, begin, |piece|)
    ensures file' == file.(contents := Splat(all, begin, piece)[file.offset..file.offset + file.size])
    ensures written' == Covered(file.offset + file.size, begin, |piece|)
  {
    file', written' := file, written;
    var fileBegin, fileEnd := file.offset, file.offset + file.size;
    WrittenSlice(all, fileBegin, file.size, begin, piece);
    if fileEnd >= begin && fileBegin <= begin + |piece| {
      var relativeOffset: nat := begin + written - fileBegin;
      var room: nat := file.size - relativeOffset;
      var bytesToWrite: nat := Min(room, |piece| - written);
      file' := file.(contents := Splat(file.contents, relativeOffset, piece[written..written + bytesToWrite]));
      written' := written + bytesToWrite;
    }
  }

  /** The scatter loop: a piece is written file by file over its range of the torrent.
      On every contiguous list, empty files included, no subtraction underflows and exactly the range of
      the piece that lies inside the files is overwritten. */
  method Scatter(files: seq<FileInfo>, begin: nat, piece: seq<byte>) returns (files': seq<FileInfo>, written: nat)
    requires Contiguous(files, 0)
    ensures Contiguous(files', 0) && SameLayout(files, files') && TotalSize(files') == TotalSize(files)
    ensures Concat(files') == Splat(Concat(files), begin, piece)
    ensures written == Covered(TotalSize(files), begin, |piece|)
  {
    hide Scattered;
    hide Contiguous;
    hide Concat;
    hide TotalSize;
    hide Splat;
    files', written := files, 0;
    var k := 0;
    ScatterStart(files, begin, piece);
    while written != |piece| && k < |files|
      invariant k <= |files| && Scattered(files, files', k, begin, piece)
      invariant written == Covered(TotalSize(files[..k]), begin, |piece|)
    {
      AtFile(files, k);
      ScatterAt(files, files', k, begin, piece);
      var file;
      file, written := ScatterFile(Concat(files), files'[k], begin, piece, written);
      ScatterStep(files, files', k, begin, piece, file.contents);
      files' := files'[k := file];
      k := k + 1;
    }
    assert k == |files| ==> files[..k] == files;
    SplitAt(files, 0, k);
    ScatterDone(files, files', k, begin, piece);
  }

  lemma ScatterStart(files: seq<FileInfo>, begin: nat, piece: seq<byte>)
    ensures Scattered(files, files, 0, begin, piece) && TotalSize(files[..0]) == 0
  {
  }

  lemma ScatterAt(files: seq<FileInfo>, files': seq<FileInfo>, k: nat, begin: nat, piece: seq<byte>)
    requires Scattered(files, files', k, begin, piece) && k < |files|
    ensures |files'| == |files| && files'[k] == files[k]
  {
    assert files'[k..][0] == files[k..][0];
  }

  /** The body of the gather loop for one file. */
  method GatherFile(ghost all: seq<byte>, file: FileInfo, begin: nat, size: nat, data: seq<byte>)
      returns (data': seq<byte>)
    requires file.offset + file.size <= |all| && file.contents == all[file.offset..file.offset + file.size]
    requires ReadSoFar(all, file.offset, begin, size, data)
    ensures ReadSoFar(all, file.offset + file.size, begin, size, data')
  {
    data' := data;
    var fileBegin, fileEnd := file.offset, file.offset + file.size;
    CoveredStep(fileBegin, file.size, begin, size);
    hide Covered;
    if fileEnd >= begin && fileBegin <= begin + size {
      var relativeOffset: nat := begin + |data| - fileBegin;
      var room: nat := file.size - relativeOffset;
      var bytesToRead: nat := Min(room, size - |data|);
      data' := data + file.contents[relativeOffset..relativeOffset + bytesToRead];
      GatherSlice(all, file, begin, data, bytesToRead);
    }
  }

  /** How far one file takes a piece. */
  lemma CoveredStep(o: nat, fileSize: nat, begin: nat, size: nat)
    ensures var d := Covered(o, begin, size);
            if o + fileSize >= begin && o <= begin + size
            then && o <= begin + d <= o + fileSize && d <= size
                 && Covered(o + fileSize, begin, size) == d + Min(fileSize - (begin + d - o), size - d)
            else Covered(o + fileSize, begin, size) == d
  {
  }

  lemma GatherSlice(all: seq<byte>, file: FileInfo, begin: nat, data: seq<byte>, n: nat)
    requires file.offset + file.size <= |all| && file.contents == all[file.offset..file.offset + file.size]
    requires file.offset <= begin + |data| && begin + |data| + n <= file.offset + file.size
    requires data != [] ==> data == all[begin..begin + |data|]
    ensures var from := begin + |data| - file.offset;
            data + file.contents[from..from + n] == all[begin..begin + |data| + n]
  {
    var from := begin + |data| - file.offset;
    Slices.Nested(all, file.offset, file.size, from, from + n);
    Slices.Adjacent(all, begin, begin + |data|, begin + |data| + n);
    if data == [] {
      assert all[begin..begin] == [];
    }
  }

  /** `data` is what lies before `pos` of the `size` bytes at `begin`. */
  ghost predicate ReadSoFar(all: seq<byte>, pos: nat, begin: nat, size: nat, data: seq<byte>) {
    && |data| == Covered(pos, begin, size)
    && (data != [] ==> begin + |data| <= |all| && data == all[begin..begin + |data|])
  }

  /** The gather loop of torrent_data_read_data: reads a piece back, or stops short at the end of the files. */
  method Gather(files: seq<FileInfo>, begin: nat, size: nat) returns (data: seq<byte>)
    requires Contiguous(files, 0)
    ensures ReadSoFar(Concat(files), TotalSize(files), begin, size, data)
  {
    data := [];
    var k := 0;
    assert files[..0] == [] && TotalSize(files[..0]) == 0;
    hide TotalSize;
    hide Concat;
    hide Contiguous;
    while |data| != size && k < |files|
      invariant k <= |files|
      invariant ReadSoFar(Concat(files), TotalSize(files[..k]), begin, size, data)
    {
      AtFile(files, k);
      data := GatherFile(Concat(files), files[k], begin, size, data);
      k := k + 1;
    }
    SplitAt(files, 0, k);
    assert k == |files| ==> files[..k] == files;
  }

  lemma SplatSlice(s: seq<byte>, at: nat, data: seq<byte>)
    requires at + |data| <= |s|
    ensures Splat(s, at, data)[at..at + |data|] == data
  {
  }

  /** A piece that lies inside the files reads back as it was written. */
  method ScatterThenGather(files: seq<FileInfo>, begin: nat, piece: seq<byte>)
      returns (files': seq<FileInfo>, data: seq<byte>)
    requires Contiguous(files, 0) && begin + |piece| <= TotalSize(files)
    ensures data == piece
  {
    ConcatLength(files, 0);
    var written: nat;
    files', written := Scatter(files, begin, piece);
    data := Gather(files', begin, |piece|);
    hide Concat;
    hide Contiguous;
    hide TotalSize;
    SplatSlice(Concat(files), begin, piece);
    hide Splat;
    assert |data| == |piece| == written;
  }
}
