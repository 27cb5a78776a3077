/** rd/tools/rd-make.c and rd/tools/rd-explorer.c: a directory tree as chains of blocks, written and walked. */
module MarioImages {
  import opened Lists

  const BLOCK_SIZE: nat := 512
  const MAX_USED: nat := 508      // the last four bytes of a block name the next one
  const ENTRY_SIZE: nat := 54
  const SLOTS: nat := 9           // MAX_USED / ENTRY_SIZE
  const ROOT_INO: nat := 32       // where the root entry lies in the super block
  const ROOT_BLOCK: nat := 1
  const ZERO_ENTRY: nat := 0xfefe_fefe
  const BOX: nat := 256
  const NAME_LEN: nat := 30
  const MAX_RD_BLOCKS: nat := 262144
  const PAGE_SIZE: nat := 4096
  const BLOCK_PER_PAGE: nat := 8

  type Byte = x | 0 <= x < 256

  datatype Kind = Reg | Lnk | Directory

  /** A file name: "." and ".." are special to both tools. */
  datatype Name = Dot | DotDot | Other(text: string)

  /** mario_dir_entry */
  datatype Entry = Entry(name: Name, kind: Kind, size: nat, blocks: nat, data: nat)

  /** What a block holds of a chain, and the number of the next block. */
  datatype Link<T> = Link(payload: seq<T>, next: nat)

  datatype Block =
    | Data(d: Link<Byte>)
    | Slots(s: Link<Entry>)
    | Super(root: Entry, nrBlocks: nat, nrFree: nat, free: nat)
    | Free(f: nat)

  /** The last word of a block. */
  function NextOf(b: Block): nat
  {
    match b
    case Data(d) => d.next
    case Slots(s) => s.next
    case Super(_, _, _, _) => 0
    case Free(f) => f
  }

  // Chains.

  /** xs, cut into blocks of cap, from block b on. */
  function Chain<T>(xs: seq<T>, cap: nat, b: nat): seq<Link<T>>
    requires cap > 0
    decreases |xs|
  {
    if |xs| <= cap then [Link(xs, 0)] else [Link(xs[..cap], b + 1)] + Chain(xs[cap..], cap, b + 1)
  }

  /** Full blocks that are to be continued. */
  function Full<T>(xs: seq<T>, cap: nat, b: nat): seq<Link<T>>
    requires cap > 0
    decreases |xs|
  {
    if |xs| < cap then [] else [Link(xs[..cap], b + 1)] + Full(xs[cap..], cap, b + 1)
  }

  lemma {:induction false} FullLength<T>(xs: seq<T>, cap: nat, b: nat, w: nat)
    requires cap > 0 && |xs| == w * cap
    ensures |Full(xs, cap, b)| == w
    decreases w
  {
    if w > 0 {
      assert |xs[cap..]| == (w - 1) * cap;
      FullLength(xs[cap..], cap, b + 1, w - 1);
    }
  }

  /** One more full block at the end. */
  lemma {:induction false} FullMore<T>(xs: seq<T>, ys: seq<T>, cap: nat, b: nat, w: nat)
    requires cap > 0 && |xs| == w * cap && |ys| == cap
    ensures Full(xs + ys, cap, b) == Full(xs, cap, b) + [Link(ys, b + w + 1)]
    decreases w
  {
    if w == 0 {
      assert xs + ys == ys && ys[..cap] == ys && ys[cap..] == [];
    } else {
      assert |xs[cap..]| == (w - 1) * cap;
      assert (xs + ys)[cap..] == xs[cap..] + ys && (xs + ys)[..cap] == xs[..cap];
      FullMore(xs[cap..], ys, cap, b + 1, w - 1);
    }
  }

  /** The last, perhaps partial, block closes the chain. */
  lemma {:induction false} FullThenLast<T>(xs: seq<T>, ys: seq<T>, cap: nat, b: nat, w: nat)
    requires cap > 0 && |xs| == w * cap && 0 < |ys| <= cap
    ensures Chain(xs + ys, cap, b) == Full(xs, cap, b) + [Link(ys, 0)]
    decreases w
  {
    if w == 0 {
      assert xs + ys == ys;
    } else {
      assert |xs[cap..]| == (w - 1) * cap;
      assert (xs + ys)[cap..] == xs[cap..] + ys && (xs + ys)[..cap] == xs[..cap];
      FullThenLast(xs[cap..], ys, cap, b + 1, w - 1);
    }
  }

  /** The number of blocks of a chain of n items. */
  function Count(n: nat, cap: nat): nat
    requires cap > 0
  {
    if n <= cap then 1 else 1 + Count(n - cap, cap)
  }

  lemma {:induction false} ChainIs<T>(xs: seq<T>, cap: nat, b: nat)
    requires cap > 0
    ensures var c := Chain(xs, cap, b);
      |c| == Count(|xs|, cap) && forall i :: 0 <= i < |c| ==> c[i].next == if i == |c| - 1 then 0 else b + i + 1
    decreases |xs|
  {
    if |xs| > cap { ChainIs(xs[cap..], cap, b + 1); }
  }

  function DataBlocks(c: seq<Link<Byte>>): (r: seq<Block>)
    ensures |r| == |c|
  {
    seq(|c|, i requires 0 <= i < |c| => Data(c[i]))
  }

  function SlotBlocks(c: seq<Link<Entry>>): (r: seq<Block>)
    ensures |r| == |c|
  {
    seq(|c|, i requires 0 <= i < |c| => Slots(c[i]))
  }

  // Writing one chain.

  /** w full blocks of what was poured are written and the buffer holds the rest. */
  ghost predicate Pouring<T>(poured: seq<T>, written: seq<Link<T>>, buf: seq<T>, cap: nat, b: nat, w: nat)
    requires cap > 0
  {
    w * cap <= |poured| && buf == poured[w * cap..] && |buf| <= cap && written == Full(poured[..w * cap], cap, b)
  }

  lemma PourStart<T>(cap: nat, b: nat)
    requires cap > 0
    ensures Pouring<T>([], [], [], cap, b, 0)
  {
  }

  /** What fits goes into the buffer. */
  lemma PourFits<T>(poured: seq<T>, written: seq<Link<T>>, buf: seq<T>, cap: nat, b: nat, w: nat, more: seq<T>)
    requires cap > 0 && Pouring(poured, written, buf, cap, b, w) && |buf| + |more| <= cap
    ensures Pouring(poured + more, written, buf + more, cap, b, w)
  {
    assert (poured + more)[..w * cap] == poured[..w * cap];
  }

  /** A full buffer is written as the next block. */
  lemma PourBlock<T>(poured: seq<T>, written: seq<Link<T>>, buf: seq<T>, cap: nat, b: nat, w: nat)
    requires cap > 0 && Pouring(poured, written, buf, cap, b, w) && |buf| == cap
    ensures |written| == w && Pouring(poured, written + [Link(buf, b + w + 1)], [], cap, b, w + 1)
  {
    var done := poured[..w * cap];
    FullLength(done, cap, b, w);
    FullMore(done, buf, cap, b, w);
    assert poured == done + buf && (w + 1) * cap == |poured|;
    assert poured[..(w + 1) * cap] == poured;
  }

  /** Closing a pour that wrote something completes the chain. */
  lemma PourEnd<T>(poured: seq<T>, written: seq<Link<T>>, buf: seq<T>, cap: nat, b: nat, w: nat)
    requires cap > 0 && Pouring(poured, written, buf, cap, b, w) && buf != []
    ensures written + [Link(buf, 0)] == Chain(poured, cap, b) && |written| == w
  {
    var done := poured[..w * cap];
    FullLength(done, cap, b, w);
    FullThenLast(done, buf, cap, b, w);
    assert poured == done + buf;
  }

  // The image under construction.

  function EntryAt(image: seq<Block>, off: nat): Option<Entry>
  {
    var b, slot := off / BLOCK_SIZE, off % BLOCK_SIZE / ENTRY_SIZE;
    if b >= |image| then None
    else
      match image[b]
      case Super(root, _, _, _) => if slot == 0 then Some(root) else None
      case Slots(s) => if slot < |s.payload| then Some(s.payload[slot]) else None
      case _ => None
  }

  /** update_mario_dir_entry */
  function Patch(image: seq<Block>, off: nat, data: nat): (r: seq<Block>)
    ensures |r| == |image|
  {
    var b, slot := off / BLOCK_SIZE, off % BLOCK_SIZE / ENTRY_SIZE;
    if b >= |image| then image
    else
      match image[b]
      case Super(root, n, m, f) => if slot == 0 then image[b := Super(root.(data := data), n, m, f)] else image
      case Slots(s) =>
        if slot < |s.payload| then image[b := Slots(s.(payload := s.payload[slot := s.payload[slot].(data := data)]))]
        else image
      case _ => image
  }

  class Writer {
    var image: seq<Block>
    var pos: nat          // the file position, in blocks
    var blocks: nat       // how many blocks were written
    var buf: seq<Byte>    // the buffer, while a file is poured
    var dents: seq<Entry> // the buffer, while a directory is poured

    /** Everything is written up to the end. */
    ghost predicate AtEnd()
      reads this`image, this`pos, this`blocks
    {
      pos == |image| == blocks
    }

    /** write_block, at the end of the file. */
    method WriteBlock(block: Block)
      requires AtEnd()
      modifies this`image, this`pos, this`blocks
      ensures AtEnd() && image == old(image) + [block]
    {
      image := image + [block];
      pos := pos + 1;
      blocks := blocks + 1;
    }

    /** pour_data for the bytes of a file. */
    method PourBytes(data: seq<Byte>, ghost base: seq<Block>, ghost poured: seq<Byte>, ghost written: seq<Link<Byte>>,
                     ghost w: nat)
      returns (ghost written': seq<Link<Byte>>, ghost w': nat)
      requires AtEnd() && image == base + DataBlocks(written) && Pouring(poured, written, buf, MAX_USED, |base|, w)
      modifies this`image, this`pos, this`blocks, this`buf
      ensures AtEnd() && image == base + DataBlocks(written')
        && Pouring(poured + data, written', buf, MAX_USED, |base|, w')
      ensures data != [] || old(buf) != [] ==> buf != []
      decreases |data|, |buf|
    {
      hide Pouring;
      BufferFits(poured, written, buf, MAX_USED, |base|, w);
      var n := MAX_USED - |buf|;
      if |data| > n {
        PourFits(poured, written, buf, MAX_USED, |base|, w, data[..n]);
        buf := buf + data[..n];
        PourBlock(poured + data[..n], written, buf, MAX_USED, |base|, w);
        var link := Link(buf, blocks + 1);
        WriteBlock(Data(link));
        buf := [];
        assert DataBlocks(written + [link]) == DataBlocks(written) + [Data(link)];
        assert poured + data == (poured + data[..n]) + data[n..];
        written', w' := PourBytes(data[n..], base, poured + data[..n], written + [link], w + 1);
      } else {
        PourFits(poured, written, buf, MAX_USED, |base|, w, data);
        buf := buf + data;
        written', w' := written, w;
      }
    }

    /** pour_data for a directory entry, which is not split. */
    method PourEntry(e: Entry, ghost base: seq<Block>, ghost poured: seq<Entry>, ghost written: seq<Link<Entry>>,
                     ghost w: nat)
      returns (ghost written': seq<Link<Entry>>, ghost w': nat)
      requires AtEnd() && image == base + SlotBlocks(written) && Pouring(poured, written, dents, SLOTS, |base|, w)
      modifies this`image, this`pos, this`blocks, this`dents
      ensures AtEnd() && image == base + SlotBlocks(written')
        && Pouring(poured + [e], written', dents, SLOTS, |base|, w')
      ensures dents != []
    {
      hide Pouring;
      BufferFits(poured, written, dents, SLOTS, |base|, w);
      written', w' := written, w;
      if ENTRY_SIZE > MAX_USED - |dents| * ENTRY_SIZE {
        PourBlock(poured, written, dents, SLOTS, |base|, w);
        var link := Link(dents, blocks + 1);
        WriteBlock(Slots(link));
        dents := [];
        assert SlotBlocks(written + [link]) == SlotBlocks(written) + [Slots(link)];
        written', w' := written + [link], w + 1;
      }
      PourFits(poured, written', dents, SLOTS, |base|, w', [e]);
      dents := dents + [e];
    }

    /** The pouring part of copy_file: the file in boxes of 256 bytes, then end_pour. */
    method PourFile(bytes: seq<Byte>)
      requires AtEnd() && bytes != []
      modifies this`image, this`pos, this`blocks, this`buf
      ensures AtEnd() && image == old(image) + DataBlocks(Chain(bytes, MAX_USED, |old(image)|))
    {
      hide Pouring;
      ghost var base, written, w := image, [], 0;
      buf := [];
      PourStart<Byte>(MAX_USED, |base|);
      assert image == base + DataBlocks([]);
      var at := 0;
      assert bytes[..0] == [];
      while true
        invariant at <= |bytes| && AtEnd() && image == base + DataBlocks(written) && (at > 0 ==> buf != [])
        invariant Pouring(bytes[..at], written, buf, MAX_USED, |base|, w)
        decreases |bytes| - at
      {
        var n := if |bytes| - at < BOX then |bytes| - at else BOX;
        var box := bytes[at..at + n];
        assert bytes[..at] + box == bytes[..at + n];
        written, w := PourBytes(box, base, bytes[..at], written, w);
        at := at + n;
        if n < BOX { break; }
      }
      assert bytes[..at] == bytes;
      PourEnd(bytes, written, buf, MAX_USED, |base|, w);
      assert DataBlocks(written + [Link(buf, 0)]) == DataBlocks(written) + [Data(Link(buf, 0))];
      EndPourBytes();
    }

    /** end_pour of a file. */
    method EndPourBytes()
      requires AtEnd()
      modifies this`image, this`pos, this`blocks, this`buf
      ensures AtEnd() && image == old(image) + (if old(buf) != [] then [Data(Link(old(buf), 0))] else [])
    {
      if buf != [] {
        WriteBlock(Data(Link(buf, 0)));
        buf := [];
      }
    }

    /** end_pour of a directory. */
    method EndPourDents()
      requires AtEnd()
      modifies this`image, this`pos, this`blocks, this`dents
      ensures AtEnd() && image == old(image) + (if old(dents) != [] then [Slots(Link(old(dents), 0))] else [])
    {
      if dents != [] {
        WriteBlock(Slots(Link(dents, 0)));
        dents := [];
      }
    }

    /** pass1: one entry per item that is kept; what their data fields hold is not known yet. A name that is too long
        ends the tool. */
    method Pass1(listed: seq<Item>, junk: seq<nat>) returns (done: bool)
      requires AtEnd() && Kept(listed) != [] && |junk| == |Kept(listed)|
      modifies this`image, this`pos, this`blocks, this`dents
      ensures done <==> forall i :: 0 <= i < |listed| ==> NameFits(listed[i].name)
      ensures done ==>
        AtEnd() && image == old(image) + SlotBlocks(Chain(Drafts(Kept(listed), junk), SLOTS, |old(image)|))
    {
      hide Pouring, Kept;
      ghost var items, base, written, w := Kept(listed), image, [], 0;
      var k := 0;
      dents := [];
      PourStart<Entry>(SLOTS, |base|);
      KeptNone(listed);
      assert image == base + SlotBlocks([]);
      assert Drafts(items, junk)[..0] == [];
      for i := 0 to |listed|
        invariant AtEnd() && image == base + SlotBlocks(written) && (k > 0 ==> dents != [])
        invariant k <= |items| && Kept(listed[..i]) == items[..k]
        invariant Pouring(Drafts(items, junk)[..k], written, dents, SLOTS, |base|, w)
        invariant forall j :: 0 <= j < i ==> NameFits(listed[j].name)
      {
        var item := listed[i];
        if !NameFits(item.name) { return false; }
        KeptOne(listed, i, k);
        if item.what.Special? { continue; }
        assert Drafts(items, junk)[..k + 1] == Drafts(items, junk)[..k] + [Draft(items[k], junk[k])];
        written, w := PourEntry(Draft(item, junk[k]), base, Drafts(items, junk)[..k], written, w);
        k := k + 1;
      }
      assert listed[..|listed|] == listed && items[..k] == items && k == |items|;
      assert Drafts(items, junk)[..|items|] == Drafts(items, junk);
      PourEnd(Drafts(items, junk), written, dents, SLOTS, |base|, w);
      assert SlotBlocks(written + [Link(dents, 0)]) == SlotBlocks(written) + [Slots(Link(dents, 0))];
      EndPourDents();
      done := true;
    }

    method UpdateEntry(off: nat, data: nat)
      modifies this`image
      ensures image == Patch(old(image), off, data)
    {
      image := Patch(image, off, data);
    }

    /** copy_file */
    method CopyFile(bytes: seq<Byte>, dent: nat)
      requires blocks == |image| && bytes != []
      modifies this`image, this`pos, this`blocks, this`buf
      ensures AtEnd() && image == Patch(old(image), dent, |old(image)|)
        + DataBlocks(Chain(bytes, MAX_USED, |old(image)|))
    {
      pos := |image|;
      UpdateEntry(dent, blocks);
      PourFile(bytes);
    }

    /** copy_symlink; readlink gave fewer than 256 bytes. */
    method CopySymlink(target: seq<Byte>, dent: nat)
      requires blocks == |image| && 0 < |target| < 256
      modifies this`image, this`pos, this`blocks, this`buf
      ensures AtEnd() && image == Patch(old(image), dent, |old(image)|) + [Data(Link(target, 0))]
    {
      pos := |image|;
      buf := [];
      UpdateEntry(dent, blocks);
      buf := buf + target;
      assert buf == target;
      EndPourBytes();
    }

    /** The data fields pass1 leaves behind are whatever its stack held. */
    method Junk(n: nat) returns (junk: seq<nat>)
      ensures |junk| == n
    {
      junk := seq(n, _ => 0);
    }

    /** copy_dir: the directory, and everything below it, goes to the end of the image, unless a name is too long. */
    method CopyDir(listed: seq<Item>, dent: nat, parent: nat) returns (done: bool)
      requires blocks == |image| && NodeOk(DirNode(Kept(listed)))
      modifies this
      ensures done <==> NamesFit(listed)
      ensures done ==> blocks == |image| && pos == PosAfter(DirNode(Kept(listed)), |old(image)|)
      ensures done ==>
        image == Patch(old(image), dent, |old(image)|) + Layout(DirNode(Kept(listed)), |old(image)|, dent, parent)
      decreases listed, 2
    {
      hide Layout, PosAfter, Patch, Drafts, Kept;
      var data := blocks;
      UpdateEntry(dent, data);
      ghost var base := image;
      pos := |image|;
      var junk := Junk(|Kept(listed)|);
      done := Pass1(listed, junk);
      if done { done := Pass2(listed, data, dent, parent, base, junk); }
    }

    /** pass2: finishes the entries of a directory and copies what they name. */
    method Pass2(listed: seq<Item>, b: nat, dent: nat, parent: nat, ghost base: seq<Block>, ghost junk: seq<nat>)
      returns (done: bool)
      requires blocks == |image| == pos && NodeOk(DirNode(Kept(listed))) && |base| == b && |junk| == |Kept(listed)|
      requires image == base + SlotBlocks(Chain(Drafts(Kept(listed), junk), SLOTS, b))
      requires forall i :: 0 <= i < |listed| ==> NameFits(listed[i].name)
      modifies this
      ensures done <==> NamesFit(listed)
      ensures done ==> blocks == |image| && image == base + Layout(DirNode(Kept(listed)), b, dent, parent)
      ensures done ==> pos == PosAfter(DirNode(Kept(listed)), b)
      decreases listed, 1, 2
    {
      assert Kept(listed) != [];
      hide Copied, Scanning, Layout, SlotBlocks, Chain, Drafts, Kept, KeptItem, NamesFit, ItemNamesFit, FirstFit,
        PosAfter, NodeOk, ItemOk, Files;
      var files := Files(listed);
      ghost var d := Copying(base, Kept(listed), junk, dent, parent);
      ScanStart(image, d);
      done := ScanDir(listed, files, b, dent, parent, d);
      if done {
        CopiedIs(image, pos, d);
        AllNamesFit(listed);
      }
    }

    /** The blocks of a directory in pass2. */
    method ScanDir(listed: seq<Item>, files: seq<Item>, b: nat, dent: nat, parent: nat, ghost d: Copying)
      returns (done: bool)
      requires blocks == |image| && d.items == Kept(listed) && NodeOk(DirNode(d.items)) && |d.junk| == |d.items|
      requires files == Files(listed) && dent == d.self && parent == d.parent
      requires Scanning(image, pos, d, 0, b, 0)
      modifies this
      ensures !done ==> !NamesFit(listed)
      ensures done ==> blocks == |image| && Copied(image, pos, d) && FirstFit(files, |files|)
      decreases listed, 1, 1
    {
      hide Copied, Scanning, FirstFit, Kept, NamesFit, NodeOk, Files, NextOf;
      NoneUnfit(files);
      var block: nat, k: nat := b, 0;
      while true
        invariant k <= |files| && blocks == |image|
        invariant Scanning(image, pos, d, k, block, 0) && FirstFit(files, k)
        decreases |files| - k
      {
        var end;
        done, end, k := ScanBlock(listed, files, block, k, dent, parent, d);
        if !done { return; }
        if end { break; }
        var next := NextOf(image[block]);
        pos := block + 1;
        if next == 0 { break; }
        assert k < |d.items|;
        block := next;
      }
      done := true;
    }

    /** The slots of one block in pass2; end says that there are no more entries. */
    method ScanBlock(listed: seq<Item>, files: seq<Item>, block: nat, k0: nat, dent: nat, parent: nat, ghost d: Copying)
      returns (done: bool, end: bool, k: nat)
      requires blocks == |image| && d.items == Kept(listed) && NodeOk(DirNode(d.items)) && |d.junk| == |d.items|
      requires files == Files(listed) && dent == d.self && parent == d.parent
      requires Scanning(image, pos, d, k0, block, 0) && k0 <= |files| && FirstFit(files, k0)
      modifies this
      ensures !done ==> !NamesFit(listed)
      ensures done ==> blocks == |image| && k0 <= k <= |files| && FirstFit(files, k)
      ensures done && end ==> k == |files| && Copied(image, pos, d)
      ensures done && !end ==> k0 < k && BlockDone(image, d, k, block)
      decreases listed, 1, 0
    {
      hide Scanning, Copied, BlockDone, Draft, FirstFit, Kept, NamesFit, NodeOk, Files, Offset, EntryAt, DentAt;
      k, end := k0, false;
      for i := 0 to SLOTS
        invariant k == k0 + i <= |files| && blocks == |image| && FirstFit(files, k)
        invariant if i < SLOTS then Scanning(image, pos, d, k, block, i) else BlockDone(image, d, k, block)
      {
        SlotRead(image, pos, d, k, block, i);
        var at := Offset(block, i);
        var entry := EntryAt(image, at);
        if entry == None { return true, true, k; }
        done := CopySlot(files[k], entry.value, at, dent, parent, listed, d, k, block, i);
        if !done { return; }
        k := k + 1;
      }
      done := true;
    }

    /** The entry at slot k in pass2: what the scan knows before and after it. */
    method CopySlot(file: Item, entry: Entry, at: nat, dent: nat, parent: nat, ghost listed: seq<Item>,
                    ghost d: Copying, ghost k: nat, ghost block: nat, ghost i: nat) returns (done: bool)
      requires blocks == |image| && d.items == Kept(listed) && NodeOk(DirNode(d.items)) && |d.junk| == |d.items|
      requires Scanning(image, pos, d, k, block, i) && k < |d.items| && dent == d.self && parent == d.parent
      requires file == Files(listed)[k] && entry == Draft(d.items[k], d.junk[k]) && at == DentAt(|d.base|, k)
      requires FirstFit(Files(listed), k)
      modifies this
      ensures if done then FirstFit(Files(listed), k + 1) else !NamesFit(listed)
      ensures done ==> blocks == |image| && SlotDone(image, pos, d, k, block, i)
      decreases listed, 0
    {
      hide Scanning, Layout, Patch, DataOf, LayoutItem, DentAt, Draft, FirstFit, Kept, KeptItem, NamesFit, ItemNamesFit,
        PosItem, NodeOk, ItemOk, Files, SlotDone;
      ghost var before, p := image, pos;
      ghost var j := FileListed(listed, k, d.junk[k]);
      OneFits(Files(listed), k);
      done := CopyItem(file, entry, at, dent, parent, d.junk[k]);
      if done { ItemDone(before, p, image, pos, d, k, block, i); } else { OneUnfit(listed, k); }
    }

    /** One entry in pass2. */
    method CopyItem(file: Item, entry: Entry, at: nat, dent: nat, parent: nat, ghost junk: nat) returns (done: bool)
      requires blocks == |image| && ItemOk(KeptItem(file)) && entry == Draft(file, junk)
      modifies this
      ensures done <==> ItemNamesFit(file)
      ensures done ==> blocks == |image| && var item := KeptItem(file);
        && image == Patch(old(image), at, DataOf(item, |old(image)|, dent, parent))
          + LayoutItem(item, |old(image)|, at, dent)
        && pos == PosItem(item, |old(image)|, old(pos))
      decreases file, 3
    {
      hide Chain, SlotBlocks, LayoutItems, Patch, Kept, NamesFit;
      ghost var was, item := image, KeptItem(file);
      NoLayout(item, |was|, at, dent, Patch(was, at, DataOf(item, |was|, dent, parent)));
      done := true;
      if entry.kind == Reg {
        if entry.size > 0 {
          ChainIs(file.what.node.bytes, MAX_USED, |image|);
          CopyFile(file.what.node.bytes, at);
        } else {
          UpdateEntry(at, ZERO_ENTRY);
        }
      } else if entry.kind == Lnk {
        CopySymlink(file.what.node.target, at);
      } else if entry.name == Dot {
        UpdateEntry(at, dent);
      } else if entry.name == DotDot {
        UpdateEntry(at, parent);
      } else {
        done := CopyDir(file.what.node.items, at, dent);
      }
    }

    /** make_begin */
    constructor ()
      ensures AtEnd() && image == [Blank()]
    {
      image, pos, blocks, buf, dents := [Blank()], 1, 1, [], [];
    }

    /** truncate_rd: the free chain, from where the file position is. */
    method TruncateRd(nr: nat)
      requires blocks <= nr && pos <= |image|
      modifies this`image, this`pos, this`blocks
      ensures image == Over(old(image), old(pos), FreeBlocks(old(blocks), nr))
    {
      hide FreeBlocks, Over;
      ghost var was, start, p := image, blocks, pos;
      OverNothing(image, pos);
      while blocks < nr
        invariant start <= blocks <= nr && pos == p + (blocks - start) <= |image|
        invariant image == Over(was, p, FreeBlocks(start, nr)[..blocks - start])
      {
        var free := Free((blocks + 1) % nr);
        FreePrefix(start, nr, blocks - start);
        OverMore(was, p, FreeBlocks(start, nr)[..blocks - start], free);
        image := if pos < |image| then image[pos := free] else image + [free];
        pos := pos + 1;
        blocks := blocks + 1;
      }
      assert FreeBlocks(start, nr)[..nr - start] == FreeBlocks(start, nr);
    }

    /** The whole tool, without a device list; ok is its exit status. The size check looks for the image under the name
        it was created with, but inside the archived directory: found says whether that name still leads to the image,
        as an absolute path does, and stray is the size it sees otherwise, of some other file or whatever the stack
        held. */
    method MakeImage(listed: seq<Item>, nr: nat, found: bool, stray: int) returns (ok: bool)
      requires AtEnd() && image == [Blank()] && NodeOk(DirNode(Kept(listed)))
      modifies this
      ensures var items := Kept(listed);
        var n := ROOT_BLOCK + Span(DirNode(items));
        if !NamesFit(listed) || n > MAX_RD_BLOCKS then !ok
        else
          var total := Decided(n, nr);
          && image == Written(items, total)
          && (image == Finished(items, total) <==> EndsAtEnd(items) || total == n)
          && ok == (if found then FileSize(items, total) % PAGE_SIZE == 0 else stray % PAGE_SIZE == 0)
          && (found && image == Finished(items, total) ==> ok)
    {
      hide Layout, PosAfter, FreeBlocks, Over, EndPos, EndsAtEnd, Written, Finished, FileSize, Decided, Span, NodeOk,
        Kept, NamesFit;
      ghost var items := Kept(listed);
      var done := CopyDir(listed, ROOT_INO, ROOT_INO);
      if !done { return false; }
      RootPatched(items);
      LayoutSize(DirNode(items), ROOT_BLOCK, ROOT_INO, ROOT_INO);
      EndPosIs(items, ROOT_BLOCK);
      EndPosBound(items, ROOT_BLOCK);
      if blocks > MAX_RD_BLOCKS { return false; }
      ghost var made, n, p := image, blocks, pos;
      var total := DecideNrBlock(blocks, nr);
      var nr_free := total - blocks;
      var free := if nr_free == 0 then 0 else blocks;
      if nr_free != 0 { TruncateRd(total); }
      SuperUpdated(made, items, p, n, total);
      var root := image[0].root;
      image := image[0 := Super(root, total, nr_free, free)];
      WrittenSize(items, total);
      FinishedSize(items, total);
      FinishedIff(items, total);
      var st_size := if found then |image| * BLOCK_SIZE else stray;
      ok := st_size % PAGE_SIZE == 0;
    }
  }

  lemma BufferFits<T>(poured: seq<T>, written: seq<Link<T>>, buf: seq<T>, cap: nat, b: nat, w: nat)
    requires cap > 0 && Pouring(poured, written, buf, cap, b, w)
    ensures |buf| <= cap && |written| == w
  {
    FullLength(poured[..w * cap], cap, b, w);
  }

  // Directory trees and where their chains lie.

  /** What scandir lists in a directory. */
  datatype Item = Item(name: Name, what: What)
  datatype What = Self | Parent | Sub(node: Node) | Special  // a device, pipe or socket
  datatype Node = FileNode(bytes: seq<Byte>) | LinkNode(target: seq<Byte>) | DirNode(items: seq<Item>)

  predicate NameFits(name: Name) { name.Other? ==> |name.text| < NAME_LEN }

  /** No name in the directory or below it is too long. */
  predicate NamesFit(listed: seq<Item>)
    decreases listed, 1
  {
    forall i :: 0 <= i < |listed| ==> NameFits(listed[i].name) && ItemNamesFit(listed[i])
  }

  predicate ItemNamesFit(i: Item)
    decreases i
  {
    match i.what
    case Sub(DirNode(items)) => NamesFit(items)
    case _ => true
  }

  /** The directory without special files, here and below. */
  function Kept(listed: seq<Item>): seq<Item>
    decreases listed
  {
    if listed == [] then []
    else
      var n := |listed| - 1;
      Kept(listed[..n]) + if listed[n].what.Special? then [] else [KeptItem(listed[n])]
  }

  function KeptItem(i: Item): Item
    decreases i
  {
    match i.what
    case Sub(DirNode(items)) => i.(what := Sub(DirNode(Kept(items))))
    case _ => i
  }

  /** The files that a directory gets entries for. */
  function Files(listed: seq<Item>): (fs: seq<Item>)
    ensures |fs| == |Kept(listed)|
    decreases |listed|
  {
    if listed == [] then []
    else
      var n := |listed| - 1;
      Files(listed[..n]) + if listed[n].what.Special? then [] else [listed[n]]
  }

  lemma {:induction false} FilesListed(listed: seq<Item>)
    ensures forall k :: 0 <= k < |Files(listed)| ==>
      Files(listed)[k] in listed && Kept(listed)[k] == KeptItem(Files(listed)[k])
    ensures forall x :: x in listed ==> x.what.Special? || x in Files(listed)
    decreases |listed|
  {
    if listed != [] {
      var n := |listed| - 1;
      assert listed == listed[..n] + [listed[n]];
      FilesListed(listed[..n]);
      hide KeptItem;
    }
  }

  lemma KeptNone(listed: seq<Item>)
    ensures Kept(listed[..0]) == []
  {
  }

  /** What one more listed item adds to what was kept so far. */
  lemma KeptOne(listed: seq<Item>, i: nat, k: nat)
    requires i < |listed| && k <= |Kept(listed)| && Kept(listed[..i]) == Kept(listed)[..k]
    ensures listed[i].what.Special? ==> Kept(listed[..i + 1]) == Kept(listed)[..k]
    ensures !listed[i].what.Special? ==>
      k < |Kept(listed)| && Kept(listed)[k] == KeptItem(listed[i]) && Kept(listed[..i + 1]) == Kept(listed)[..k + 1]
    ensures forall junk :: Draft(KeptItem(listed[i]), junk) == Draft(listed[i], junk)
  {
    var more := listed[..i + 1];
    assert more[..i] == listed[..i] && more[i] == listed[i];
    KeptPrefix(listed, i + 1);
    KeptDraft(listed[i]);
    hide KeptItem, Draft;
    assert Kept(more) == Kept(more[..i]) + if more[i].what.Special? then [] else [KeptItem(more[i])];
    hide Kept;
  }

  lemma KeptDraft(i: Item)
    ensures forall junk :: Draft(KeptItem(i), junk) == Draft(i, junk)
  {
  }

  lemma {:induction false} KeptPrefix(listed: seq<Item>, i: nat)
    requires i <= |listed|
    ensures Kept(listed[..i]) <= Kept(listed)
    decreases |listed|
  {
    if i == |listed| {
      assert listed[..i] == listed;
    } else {
      var n := |listed| - 1;
      assert listed[..n][..i] == listed[..i];
      KeptPrefix(listed[..n], i);
    }
  }

  /** The file at slot k is one of the listed ones, and its entry is drafted from it. */
  lemma FileListed(listed: seq<Item>, k: nat, junk: nat) returns (j: nat)
    requires k < |Files(listed)| && NodeOk(DirNode(Kept(listed)))
    ensures j < |listed| && listed[j] == Files(listed)[k]
    ensures ItemOk(KeptItem(Files(listed)[k])) && Kept(listed)[k] == KeptItem(Files(listed)[k])
    ensures Draft(Kept(listed)[k], junk) == Draft(Files(listed)[k], junk)
  {
    FilesListed(listed);
    KeptDraft(Files(listed)[k]);
    j :| 0 <= j < |listed| && listed[j] == Files(listed)[k];
  }

  /** Below the first k files no name is too long. */
  predicate FirstFit(files: seq<Item>, k: nat) { forall j :: 0 <= j < k && j < |files| ==> ItemNamesFit(files[j]) }

  lemma NoneUnfit(files: seq<Item>)
    ensures FirstFit(files, 0)
  {
  }

  lemma OneFits(files: seq<Item>, k: nat)
    requires k < |files|
    ensures FirstFit(files, k) && ItemNamesFit(files[k]) ==> FirstFit(files, k + 1)
  {
  }

  lemma AllNamesFit(listed: seq<Item>)
    requires (forall i :: 0 <= i < |listed| ==> NameFits(listed[i].name)) && FirstFit(Files(listed), |Files(listed)|)
    ensures NamesFit(listed)
  {
    FilesListed(listed);
    forall i | 0 <= i < |listed| ensures ItemNamesFit(listed[i]) {
      assert listed[i] in listed;
      assert listed[i].what.Special? || listed[i] in Files(listed);
    }
  }

  lemma OneUnfit(listed: seq<Item>, k: nat)
    requires k < |Files(listed)| && !ItemNamesFit(Files(listed)[k])
    ensures !NamesFit(listed)
  {
    FilesListed(listed);
    assert Files(listed)[k] in listed;
  }

  /** The number of blocks of a node with everything below it. */
  function Span(n: Node): nat
    decreases n
  {
    match n
    case FileNode(bytes) => if bytes == [] then 0 else Count(|bytes|, MAX_USED)
    case LinkNode(_) => 1
    case DirNode(items) => Count(|items|, SLOTS) + Spans(items)
  }

  function ItemSpan(i: Item): nat
    decreases i
  {
    match i.what
    case Sub(node) => Span(node)
    case _ => 0
  }

  function Spans(items: seq<Item>): nat
    decreases items
  {
    if items == [] then 0 else ItemSpan(items[0]) + Spans(items[1..])
  }

  /** The directory entry as pass1 writes it; its data field is not set yet. */
  function Draft(i: Item, junk: nat): Entry
  {
    match i.what
    case Sub(FileNode(bytes)) => Entry(i.name, Reg, |bytes|, (|bytes| + MAX_USED - 1) / MAX_USED, junk)
    case Sub(LinkNode(target)) => Entry(i.name, Lnk, |target|, (|target| + MAX_USED - 1) / MAX_USED, junk)
    case _ => Entry(i.name, Directory, 0, 0, junk)
  }

  /** What pass2 puts into the data field: where the item's chain starts, or for . and .. which directory they name. */
  function DataOf(i: Item, start: nat, self: nat, parent: nat): nat
  {
    match i.what
    case Self => self
    case Parent => parent
    case Sub(FileNode(bytes)) => if bytes == [] then ZERO_ENTRY else start
    case _ => start
  }

  /** The block count of an entry is that of its chain, and an empty file has none. */
  lemma {:induction false} DraftBlocks(i: Item, junk: nat)
    requires ItemOk(i) && i.what.Sub? && !i.what.node.DirNode?
    ensures var e := Draft(i, junk);
      && e.name == i.name && e.kind == (if i.what.node.FileNode? then Reg else Lnk) && e.blocks == ItemSpan(i)
      && e.size == (if i.what.node.FileNode? then |i.what.node.bytes| else |i.what.node.target|)
      && e.size <= e.blocks * 508 < e.size + 508
  {
    match i.what.node
    case FileNode(bytes) => if bytes != [] { CountBlocks(|bytes|); }
    case LinkNode(target) =>
  }

  lemma {:induction false} CountBlocks(n: nat)
    requires n > 0
    ensures Count(n, MAX_USED) == (n + MAX_USED - 1) / MAX_USED
  {
    if n > MAX_USED { CountBlocks(n - MAX_USED); }
  }

  /** The finished entries of a directory whose first file or subdirectory lies at start. */
  function Entries(items: seq<Item>, start: nat, self: nat, parent: nat): (r: seq<Entry>)
    ensures |r| == |items|
  {
    if items == [] then []
    else
      [Draft(items[0], DataOf(items[0], start, self, parent))]
      + Entries(items[1..], start + ItemSpan(items[0]), self, parent)
  }

  /** Where slot i of a block lies in the image. */
  function Offset(block: nat, i: nat): nat { block * BLOCK_SIZE + i * ENTRY_SIZE }

  /** Where slot i of the directory at block b lies in the image. */
  function DentAt(b: nat, i: nat): nat { (b + i / SLOTS) * BLOCK_SIZE + i % SLOTS * ENTRY_SIZE }

  /** The blocks of a node that starts at b, with the entry at dent in the directory with the entry at parent. */
  function Layout(n: Node, b: nat, dent: nat, parent: nat): seq<Block>
    decreases n, 1
  {
    match n
    case FileNode(bytes) => if bytes == [] then [] else DataBlocks(Chain(bytes, MAX_USED, b))
    case LinkNode(target) => [Data(Link(target, 0))]
    case DirNode(items) =>
      var own := Count(|items|, SLOTS);
      SlotBlocks(Chain(Entries(items, b + own, dent, parent), SLOTS, b)) + LayoutItems(items, b + own, b, 0, dent)
  }

  /** The blocks below a directory: items are those from slot i on, and start is where the first of them goes. */
  function LayoutItems(items: seq<Item>, start: nat, dir: nat, i: nat, self: nat): seq<Block>
    decreases items, 0
  {
    if items == [] then []
    else
      LayoutItem(items[0], start, DentAt(dir, i), self)
      + LayoutItems(items[1..], start + ItemSpan(items[0]), dir, i + 1, self)
  }

  function LayoutItem(i: Item, start: nat, dent: nat, self: nat): seq<Block>
    decreases i, 2
  {
    match i.what
    case Sub(node) => Layout(node, start, dent, self)
    case _ => []
  }

  function Drafts(items: seq<Item>, junk: seq<nat>): (r: seq<Entry>)
    requires |junk| == |items|
    ensures |r| == |items|
  {
    seq(|items|, i requires 0 <= i < |items| => Draft(items[i], junk[i]))
  }

  lemma {:induction false} LayoutSize(n: Node, b: nat, dent: nat, parent: nat)
    ensures |Layout(n, b, dent, parent)| == Span(n)
    decreases n, 1
  {
    match n
    case FileNode(bytes) => if bytes != [] { ChainIs(bytes, MAX_USED, b); }
    case LinkNode(_) =>
    case DirNode(items) =>
      var own := Count(|items|, SLOTS);
      ChainIs(Entries(items, b + own, dent, parent), SLOTS, b);
      LayoutItemsSize(items, b + own, b, 0, dent);
  }

  lemma {:induction false} LayoutItemsSize(items: seq<Item>, start: nat, dir: nat, i: nat, self: nat)
    ensures |LayoutItems(items, start, dir, i, self)| == Spans(items)
    decreases items, 0
  {
    if items != [] {
      LayoutItemSize(items[0], start, DentAt(dir, i), self);
      LayoutItemsSize(items[1..], start + ItemSpan(items[0]), dir, i + 1, self);
    }
  }

  lemma {:induction false} LayoutItemSize(i: Item, start: nat, dent: nat, self: nat)
    ensures |LayoutItem(i, start, dent, self)| == ItemSpan(i)
    decreases i, 2
  {
    match i.what
    case Sub(node) => LayoutSize(node, start, dent, self);
    case _ =>
  }

  // Finishing a directory entry by entry.

  /** es with data field i set. */
  function WithData(es: seq<Entry>, i: nat, v: nat): (r: seq<Entry>)
    requires i < |es|
    ensures |r| == |es|
  {
    es[i := es[i].(data := v)]
  }

  /** Setting the data field of slot i of a directory. */
  lemma {:induction false} PatchChain(base: seq<Block>, es: seq<Entry>, rest: seq<Block>, i: nat, v: nat)
    requires i < |es|
    ensures Patch(base + SlotBlocks(Chain(es, SLOTS, |base|)) + rest, DentAt(|base|, i), v)
      == base + SlotBlocks(Chain(WithData(es, i, v), SLOTS, |base|)) + rest
    decreases |es|, 1
  {
    hide Patch, DentAt, SlotBlocks, Chain;
    if |es| <= SLOTS {
      SlotBlocksOne(es, |base|);
      SlotBlocksOne(WithData(es, i, v), |base|);
      PatchSlot(base, Link(es, 0), rest, i, v);
    } else {
      SlotBlocksCons(es, |base|);
      SlotBlocksCons(WithData(es, i, v), |base|);
      if i < SLOTS { PatchFirst(base, es, rest, i, v); } else { PatchLater(base, es, rest, i, v); }
    }
  }

  lemma PatchFirst(base: seq<Block>, es: seq<Entry>, rest: seq<Block>, i: nat, v: nat)
    requires i < SLOTS < |es|
    ensures var b, es' := |base|, WithData(es, i, v);
      Patch(base + ([Slots(Link(es[..SLOTS], b + 1))] + SlotBlocks(Chain(es[SLOTS..], SLOTS, b + 1))) + rest,
        DentAt(b, i), v)
        == base + ([Slots(Link(es'[..SLOTS], b + 1))] + SlotBlocks(Chain(es'[SLOTS..], SLOTS, b + 1))) + rest
  {
    hide Patch, DentAt, SlotBlocks, Chain;
    var b, es' := |base|, WithData(es, i, v);
    var first, more := Link(es[..SLOTS], b + 1), SlotBlocks(Chain(es[SLOTS..], SLOTS, b + 1));
    PatchSlot(base, first, more + rest, i, v);
    assert es'[SLOTS..] == es[SLOTS..] && es'[..SLOTS] == WithData(es[..SLOTS], i, v);
    Regroup(base, [Slots(first)], more, rest);
    Regroup(base, [Slots(Link(es'[..SLOTS], b + 1))], more, rest);
  }

  lemma PatchLater(base: seq<Block>, es: seq<Entry>, rest: seq<Block>, i: nat, v: nat)
    requires SLOTS <= i < |es|
    ensures var b, es' := |base|, WithData(es, i, v);
      Patch(base + ([Slots(Link(es[..SLOTS], b + 1))] + SlotBlocks(Chain(es[SLOTS..], SLOTS, b + 1))) + rest,
        DentAt(b, i), v)
        == base + ([Slots(Link(es'[..SLOTS], b + 1))] + SlotBlocks(Chain(es'[SLOTS..], SLOTS, b + 1))) + rest
    decreases |es|, 0
  {
    hide Patch, SlotBlocks, Chain;
    var b, es' := |base|, WithData(es, i, v);
    LaterDent(b, i);
    hide DentAt, WithData;
    var first := [Slots(Link(es[..SLOTS], b + 1))];
    var more, more' := SlotBlocks(Chain(es[SLOTS..], SLOTS, b + 1)), SlotBlocks(Chain(es'[SLOTS..], SLOTS, b + 1));
    PatchChain(base + first, es[SLOTS..], rest, i - SLOTS, v);
    LaterData(es, i, v);
    Regroup2(base, first, more, rest);
    Regroup2(base, first, more', rest);
  }

  lemma LaterDent(b: nat, i: nat)
    requires SLOTS <= i
    ensures DentAt(b + 1, i - SLOTS) == DentAt(b, i)
  {
  }

  lemma LaterData(es: seq<Entry>, i: nat, v: nat)
    requires SLOTS <= i < |es|
    ensures WithData(es, i, v)[SLOTS..] == WithData(es[SLOTS..], i - SLOTS, v)
      && WithData(es, i, v)[..SLOTS] == es[..SLOTS]
  {
  }

  lemma Regroup2(a: seq<Block>, b: seq<Block>, c: seq<Block>, d: seq<Block>)
    ensures a + (b + c) + d == (a + b) + c + d
  {
  }

  lemma Regroup(a: seq<Block>, b: seq<Block>, c: seq<Block>, d: seq<Block>)
    ensures a + (b + c) + d == a + b + (c + d)
  {
  }

  lemma SlotBlocksOne(es: seq<Entry>, b: nat)
    requires |es| <= SLOTS
    ensures SlotBlocks(Chain(es, SLOTS, b)) == [Slots(Link(es, 0))]
  {
  }

  lemma SlotBlocksCons(es: seq<Entry>, b: nat)
    requires |es| > SLOTS
    ensures SlotBlocks(Chain(es, SLOTS, b)) == [Slots(Link(es[..SLOTS], b + 1))]
      + SlotBlocks(Chain(es[SLOTS..], SLOTS, b + 1))
  {
  }

  lemma PatchSlot(base: seq<Block>, l: Link<Entry>, rest: seq<Block>, i: nat, v: nat)
    requires i < SLOTS && i < |l.payload|
    ensures Patch(base + [Slots(l)] + rest, DentAt(|base|, i), v)
      == base + [Slots(l.(payload := l.payload[i := l.payload[i].(data := v)]))] + rest
  {
    DentParts(|base|, i);
    hide DentAt;
    assert (base + [Slots(l)] + rest)[|base|] == Slots(l);
  }

  lemma DentParts(b: nat, i: nat)
    requires i < SLOTS
    ensures DentAt(b, i) / BLOCK_SIZE == b && DentAt(b, i) % BLOCK_SIZE / ENTRY_SIZE == i
  {
    assert DentAt(b, i) == b * BLOCK_SIZE + i * ENTRY_SIZE;
  }

  /** What is read at slot i of the directory es at b, or behind its end, or at the end of a full block. */
  ghost predicate Reads(image: seq<Block>, b: nat, es: seq<Entry>, i: nat)
    requires i <= |es|
  {
    && (i < |es| ==> EntryAt(image, DentAt(b, i)) == Some(es[i]))
    && (i == |es| && i % SLOTS != 0 ==> EntryAt(image, DentAt(b, i)) == None)
    && (0 < i && i % SLOTS == 0 ==>
          b + i / SLOTS - 1 < |image| && NextOf(image[b + i / SLOTS - 1]) == (if i == |es| then 0 else b + i / SLOTS))
  }

  lemma {:induction false} ReadChain(base: seq<Block>, es: seq<Entry>, rest: seq<Block>, i: nat)
    requires es != [] && i <= |es|
    ensures Reads(base + SlotBlocks(Chain(es, SLOTS, |base|)) + rest, |base|, es, i)
    decreases |es|
  {
    var b := |base|;
    if |es| <= SLOTS {
      SlotBlocksOne(es, b);
      hide SlotBlocks, Chain;
      ReadSlot(base, Link(es, 0), rest, i);
    } else {
      SlotBlocksCons(es, b);
      hide SlotBlocks, Chain, Reads;
      var first, more := [Slots(Link(es[..SLOTS], b + 1))], SlotBlocks(Chain(es[SLOTS..], SLOTS, b + 1));
      assert base + (first + more) + rest == base + first + (more + rest);
      assert base + (first + more) + rest == (base + first) + more + rest;
      if i < SLOTS {
        ReadFirst(base, es, more + rest, i);
      } else if i == SLOTS {
        ReadChain(base + first, es[SLOTS..], rest, 0);
        NextBlock(base + (first + more) + rest, b, es);
        ReadFirst(base, es, more + rest, i);
      } else {
        ReadChain(base + first, es[SLOTS..], rest, i - SLOTS);
        ReadLater(base + (first + more) + rest, b, es, i);
      }
    }
  }

  lemma ReadFirst(base: seq<Block>, es: seq<Entry>, rest: seq<Block>, i: nat)
    requires i <= SLOTS < |es|
    requires i == SLOTS ==>
      EntryAt(base + [Slots(Link(es[..SLOTS], |base| + 1))] + rest, DentAt(|base| + 1, 0)) == Some(es[SLOTS])
    ensures Reads(base + [Slots(Link(es[..SLOTS], |base| + 1))] + rest, |base|, es, i)
  {
    ReadSlot(base, Link(es[..SLOTS], |base| + 1), rest, i);
    assert DentAt(|base|, SLOTS) == DentAt(|base| + 1, 0);
    hide EntryAt, DentAt;
  }

  lemma NextBlock(image: seq<Block>, b: nat, es: seq<Entry>)
    requires |es| > SLOTS && Reads(image, b + 1, es[SLOTS..], 0)
    ensures EntryAt(image, DentAt(b + 1, 0)) == Some(es[SLOTS])
  {
    hide EntryAt, DentAt, NextOf;
  }

  lemma ReadLater(image: seq<Block>, b: nat, es: seq<Entry>, i: nat)
    requires SLOTS < i <= |es| && Reads(image, b + 1, es[SLOTS..], i - SLOTS)
    ensures Reads(image, b, es, i)
  {
    assert DentAt(b + 1, i - SLOTS) == DentAt(b, i) && i / SLOTS == (i - SLOTS) / SLOTS + 1
      && i % SLOTS == (i - SLOTS) % SLOTS;
    hide EntryAt, DentAt, NextOf;
  }

  lemma ReadSlot(base: seq<Block>, l: Link<Entry>, rest: seq<Block>, i: nat)
    requires |l.payload| <= SLOTS && i <= |l.payload|
    ensures var image := base + [Slots(l)] + rest;
      && (i < |l.payload| ==> EntryAt(image, DentAt(|base|, i)) == Some(l.payload[i]))
      && (i == |l.payload| < SLOTS ==> EntryAt(image, DentAt(|base|, i)) == None)
      && image[|base|] == Slots(l)
  {
    assert (base + [Slots(l)] + rest)[|base|] == Slots(l);
    if i < SLOTS { DentParts(|base|, i); }
    hide DentAt;
  }

  /** Entries up to slot k are finished. */
  function EntriesTo(items: seq<Item>, junk: seq<nat>, start: nat, self: nat, parent: nat, k: nat): (r: seq<Entry>)
    requires |junk| == |items| && k <= |items|
    ensures |r| == |items|
  {
    Entries(items, start, self, parent)[..k] + Drafts(items, junk)[k..]
  }

  lemma {:induction false} EntriesAt(items: seq<Item>, start: nat, self: nat, parent: nat, k: nat)
    requires k < |items|
    ensures Entries(items, start, self, parent)[k] == Draft(items[k],
      DataOf(items[k], start + Spans(items[..k]), self, parent))
  {
    if k > 0 {
      assert items[..k][1..] == items[1..][..k - 1];
      EntriesAt(items[1..], start + ItemSpan(items[0]), self, parent, k - 1);
    }
  }

  lemma {:induction false} SpansSnoc(items: seq<Item>, k: nat)
    requires k < |items|
    ensures Spans(items[..k + 1]) == Spans(items[..k]) + ItemSpan(items[k])
  {
    if k > 0 {
      assert items[..k][1..] == items[1..][..k - 1] && items[..k + 1][1..] == items[1..][..k];
      SpansSnoc(items[1..], k - 1);
    } else {
      assert items[..1][1..] == [];
    }
  }

  lemma {:induction false} LayoutSnoc(items: seq<Item>, k: nat, start: nat, dir: nat, i: nat, self: nat)
    requires k < |items|
    ensures LayoutItems(items[..k + 1], start, dir, i, self)
      == LayoutItems(items[..k], start, dir, i, self) + LayoutItem(items[k], start + Spans(items[..k]),
        DentAt(dir, i + k), self)
    decreases items
  {
    if k > 0 {
      assert items[..k][1..] == items[1..][..k - 1] && items[..k + 1][1..] == items[1..][..k];
      LayoutSnoc(items[1..], k - 1, start + ItemSpan(items[0]), dir, i + 1, self);
      hide LayoutItem, DentAt;
    } else {
      assert items[..1][1..] == [];
      assert LayoutItems(items[..1], start, dir, i, self) == LayoutItem(items[0], start, DentAt(dir, i), self) + [];
    }
  }

  /** pass2 has finished the first k items. */
  ghost predicate Scanned(image: seq<Block>, base: seq<Block>, items: seq<Item>, junk: seq<nat>, self: nat, parent: nat,
                          k: nat)
  {
    |junk| == |items| && 0 < |items| && k <= |items| &&
    var b, own := |base|, Count(|items|, SLOTS);
    image == base + SlotBlocks(Chain(EntriesTo(items, junk, b + own, self, parent, k), SLOTS, b))
      + LayoutItems(items[..k], b + own, b, 0, self)
  }

  lemma ScannedStart(image: seq<Block>, base: seq<Block>, items: seq<Item>, junk: seq<nat>, self: nat, parent: nat)
    requires |junk| == |items| && 0 < |items| && image == base + SlotBlocks(Chain(Drafts(items, junk), SLOTS, |base|))
    ensures Scanned(image, base, items, junk, self, parent, 0)
  {
    NoneFinished(items, junk, |base| + Count(|items|, SLOTS), self, parent);
    hide SlotBlocks, Chain, Entries, Drafts, EntriesTo;
    assert items[..0] == [];
  }

  lemma NoneFinished(items: seq<Item>, junk: seq<nat>, start: nat, self: nat, parent: nat)
    requires |junk| == |items|
    ensures EntriesTo(items, junk, start, self, parent, 0) == Drafts(items, junk)
  {
  }

  lemma ScannedSize(image: seq<Block>, base: seq<Block>, items: seq<Item>, junk: seq<nat>, self: nat, parent: nat,
                    k: nat)
    requires Scanned(image, base, items, junk, self, parent, k)
    ensures |image| == |base| + Count(|items|, SLOTS) + Spans(items[..k])
  {
    var b, own := |base|, Count(|items|, SLOTS);
    ChainIs(EntriesTo(items, junk, b + own, self, parent, k), SLOTS, b);
    LayoutItemsSize(items[..k], b + own, b, 0, self);
    hide Chain, SlotBlocks, LayoutItems, Entries;
  }

  /** What pass2 reads at slot k: the next item's draft, or the end of the directory. */
  lemma ScannedReads(image: seq<Block>, base: seq<Block>, items: seq<Item>, junk: seq<nat>, self: nat, parent: nat,
                     k: nat)
    requires Scanned(image, base, items, junk, self, parent, k)
    ensures var es := EntriesTo(items, junk, |base| + Count(|items|, SLOTS), self, parent, k);
      Reads(image, |base|, es, k) && (k < |items| ==> es[k] == Draft(items[k], junk[k]))
  {
    hide Chain, SlotBlocks, LayoutItems, Entries, Reads;
    var b, own := |base|, Count(|items|, SLOTS);
    ReadChain(base, EntriesTo(items, junk, b + own, self, parent, k), LayoutItems(items[..k], b + own, b, 0, self), k);
  }

  /** One more item: its data field is set and its blocks come behind. */
  lemma ScannedNext(image: seq<Block>, base: seq<Block>, items: seq<Item>, junk: seq<nat>, self: nat, parent: nat,
                    k: nat)
    requires Scanned(image, base, items, junk, self, parent, k) && k < |items|
    ensures var dent, start := DentAt(|base|, k), |image|;
      Scanned(Patch(image, dent, DataOf(items[k], start, self, parent)) + LayoutItem(items[k], start, dent, self),
              base, items, junk, self, parent, k + 1)
  {
    hide Entries, Drafts, Chain, SlotBlocks, Patch, LayoutItems, LayoutItem, DataOf, DentAt, EntriesTo, Count, Spans;
    var start := |base| + Count(|items|, SLOTS);
    ScannedSize(image, base, items, junk, self, parent, k);
    NextEntries(items, junk, start, self, parent, k);
    NextLayout(items, start, |base|, self, k);
    PatchAppend(base, EntriesTo(items, junk, start, self, parent, k), LayoutItems(items[..k], start, |base|, 0, self),
      k,
                DataOf(items[k], |image|, self, parent), LayoutItem(items[k], |image|, DentAt(|base|, k), self));
  }

  lemma PatchAppend(base: seq<Block>, es: seq<Entry>, rest: seq<Block>, k: nat, v: nat, item: seq<Block>)
    requires k < |es|
    ensures Patch(base + SlotBlocks(Chain(es, SLOTS, |base|)) + rest, DentAt(|base|, k), v) + item
      == base + SlotBlocks(Chain(WithData(es, k, v), SLOTS, |base|)) + (rest + item)
  {
    hide Chain, SlotBlocks, Patch, DentAt;
    PatchChain(base, es, rest, k, v);
    Assoc(base + SlotBlocks(Chain(WithData(es, k, v), SLOTS, |base|)), rest, item);
  }

  lemma Assoc(a: seq<Block>, b: seq<Block>, c: seq<Block>)
    ensures a + b + c == a + (b + c)
  {
  }

  lemma NextLayout(items: seq<Item>, start: nat, b: nat, self: nat, k: nat)
    requires k < |items|
    ensures LayoutItems(items[..k + 1], start, b, 0, self)
      == LayoutItems(items[..k], start, b, 0, self) + LayoutItem(items[k], start + Spans(items[..k]), DentAt(b, k),
        self)
  {
    LayoutSnoc(items, k, start, b, 0, self);
  }

  lemma NextEntries(items: seq<Item>, junk: seq<nat>, start: nat, self: nat, parent: nat, k: nat)
    requires |junk| == |items| && k < |items|
    ensures var v := DataOf(items[k], start + Spans(items[..k]), self, parent);
      EntriesTo(items, junk, start, self, parent, k + 1) ==
        WithData(EntriesTo(items, junk, start, self, parent, k), k, v)
  {
    EntriesAt(items, start, self, parent, k);
    EntriesStep(items, junk, start, self, parent, k, DataOf(items[k], start + Spans(items[..k]), self, parent));
  }

  lemma EntriesStep(items: seq<Item>, junk: seq<nat>, start: nat, self: nat, parent: nat, k: nat, v: nat)
    requires |junk| == |items| && k < |items|
    requires Entries(items, start, self, parent)[k] == Draft(items[k], v)
    ensures EntriesTo(items, junk, start, self, parent, k + 1) ==
      WithData(EntriesTo(items, junk, start, self, parent, k), k, v)
  {
    var es, ds := Entries(items, start, self, parent), Drafts(items, junk);
    assert ds[k] == Draft(items[k], junk[k]);
    hide Entries, Drafts;
    assert es[..k + 1] == es[..k] + [es[k]] && ds[k..] == [ds[k]] + ds[k + 1..];
  }

  lemma ScannedEnd(image: seq<Block>, base: seq<Block>, items: seq<Item>, junk: seq<nat>, self: nat, parent: nat)
    requires Scanned(image, base, items, junk, self, parent, |items|)
    ensures image == base + Layout(DirNode(items), |base|, self, parent)
  {
    hide Entries, Drafts, Chain, SlotBlocks, LayoutItems;
    var b, own := |base|, Count(|items|, SLOTS);
    assert items[..|items|] == items;
    assert EntriesTo(items, junk, b + own, self, parent, |items|) == Entries(items, b + own, self, parent);
  }

  /** What the tools can archive: every directory lists something, and only . and .. name other directories. */
  predicate NodeOk(n: Node)
    decreases n
  {
    match n
    case FileNode(_) => true
    case LinkNode(target) => 0 < |target| < 256
    case DirNode(items) => items != [] && forall i :: 0 <= i < |items| ==> ItemOk(items[i])
  }

  predicate ItemOk(i: Item)
    decreases i
  {
    match i.what
    case Self => i.name == Dot
    case Parent => i.name == DotDot
    case Sub(node) => i.name.Other? && NodeOk(node)
    case Special => false
  }

  /** Items without blocks add none. */
  lemma NoLayout(item: Item, start: nat, dent: nat, self: nat, image: seq<Block>)
    ensures !item.what.Sub? || (item.what.node.FileNode? && item.what.node.bytes == []) ==>
      image + LayoutItem(item, start, dent, self) == image
  {
  }

  /** Slot k of the directory at block b is slot i of this block. */
  predicate At(b: nat, k: nat, block: nat, i: nat) { b <= block && i < SLOTS && k == (block - b) * SLOTS + i }

  lemma AtIs(b: nat, k: nat, block: nat, i: nat)
    requires At(b, k, block, i)
    ensures block == b + k / SLOTS && i == k % SLOTS
    ensures i + 1 < SLOTS ==> (k + 1) % SLOTS == i + 1 && At(b, k + 1, block, i + 1)
    ensures i + 1 == SLOTS ==> (k + 1) % SLOTS == 0 && (k + 1) / SLOTS == k / SLOTS + 1 && At(b, k + 1, block + 1, 0)
  {
  }

  /** A directory that is being copied: the blocks before it, its items, what their data fields held, and the entries of
      itself and its parent. */
  datatype Copying = Copying(base: seq<Block>, items: seq<Item>, junk: seq<nat>, self: nat, parent: nat)

  /** pass2 is at slot i of the given block, which is slot k of the directory, with the file position at pos. */
  ghost predicate Scanning(image: seq<Block>, pos: nat, d: Copying, k: nat, block: nat, i: nat) {
    && d.items != [] && Scanned(image, d.base, d.items, d.junk, d.self, d.parent, k) && At(|d.base|, k, block, i)
    && (i == 0 && k > 0 ==> k < |d.items|)
    && PosItems(d.items[k..], k, |image|, |d.base|, pos) == PosAfter(DirNode(d.items), |d.base|)
  }

  /** The directory and everything below it is done. */
  ghost predicate Copied(image: seq<Block>, pos: nat, d: Copying) {
    image == d.base + Layout(DirNode(d.items), |d.base|, d.self, d.parent)
      && pos == PosAfter(DirNode(d.items), |d.base|)
  }

  /** After slot k: at the next slot, or with a full block behind it. */
  ghost predicate SlotDone(image: seq<Block>, pos: nat, d: Copying, k: nat, block: nat, i: nat) {
    if i + 1 < SLOTS then Scanning(image, pos, d, k + 1, block, i + 1) else BlockDone(image, d, k + 1, block)
  }

  /** The block is full and done: the scan goes on with the next one, or has come to the end. */
  ghost predicate BlockDone(image: seq<Block>, d: Copying, k: nat, block: nat) {
    && block < |image|
    && if k < |d.items|
       then NextOf(image[block]) > 0 && Scanning(image, block + 1, d, k, NextOf(image[block]), 0)
       else NextOf(image[block]) == 0 && k == |d.items| && Copied(image, block + 1, d)
  }

  lemma CopiedIs(image: seq<Block>, pos: nat, d: Copying)
    requires Copied(image, pos, d)
    ensures image == d.base + Layout(DirNode(d.items), |d.base|, d.self, d.parent)
    ensures pos == PosAfter(DirNode(d.items), |d.base|)
  {
  }

  lemma ScanStart(image: seq<Block>, d: Copying)
    requires d.items != [] && |d.junk| == |d.items|
    requires image == d.base + SlotBlocks(Chain(Drafts(d.items, d.junk), SLOTS, |d.base|))
    ensures Scanning(image, |image|, d, 0, |d.base|, 0)
  {
    hide Chain, SlotBlocks, Scanned, PosItems, Count, Spans;
    ScannedStart(image, d.base, d.items, d.junk, d.self, d.parent);
    ScannedSize(image, d.base, d.items, d.junk, d.self, d.parent, 0);
    NoSpans(d.items);
  }

  lemma ItemDone(before: seq<Block>, p: nat, image: seq<Block>, pos: nat, d: Copying, k: nat, block: nat, i: nat)
    requires Scanning(before, p, d, k, block, i) && k < |d.items|
    requires var at := DentAt(|d.base|, k);
      image == Patch(before, at, DataOf(d.items[k], |before|, d.self, d.parent))
        + LayoutItem(d.items[k], |before|, at, d.self)
    requires pos == PosItem(d.items[k], |before|, p)
    ensures SlotDone(image, pos, d, k, block, i)
  {
    hide Scanned, At, Patch, LayoutItem, DataOf, DentAt, PosItem, PosItems, PosAfter, Layout, Spans, Count, NextOf,
      EntryAt;
    AtIs(|d.base|, k, block, i);
    ScannedNext(before, d.base, d.items, d.junk, d.self, d.parent, k);
    ScannedSize(before, d.base, d.items, d.junk, d.self, d.parent, k);
    ScannedSize(image, d.base, d.items, d.junk, d.self, d.parent, k + 1);
    SpansSnoc(d.items, k);
    PosStep(d.items, k, |before|, |d.base|, p);
    ScannedReads(image, d.base, d.items, d.junk, d.self, d.parent, k + 1);
    if k + 1 == |d.items| {
      ScannedEnd(image, d.base, d.items, d.junk, d.self, d.parent);
      PosNone(d.items, |image|, |d.base|, block + 1);
    }
  }

  /** What pass2 reads at the slot, and what it has done when there is nothing. */
  lemma SlotRead(image: seq<Block>, pos: nat, d: Copying, k: nat, block: nat, i: nat)
    requires Scanning(image, pos, d, k, block, i)
    ensures k <= |d.items| == |d.junk| && Offset(block, i) == DentAt(|d.base|, k)
    ensures EntryAt(image, Offset(block, i))
      == if k < |d.items| then Some(Draft(d.items[k], d.junk[k])) else None
    ensures k == |d.items| ==> Copied(image, pos, d)
  {
    hide NextOf, EntryAt, PosItems, PosAfter, Layout;
    AtIs(|d.base|, k, block, i);
    ScannedReads(image, d.base, d.items, d.junk, d.self, d.parent, k);
    if k == |d.items| {
      ScannedEnd(image, d.base, d.items, d.junk, d.self, d.parent);
      PosNone(d.items, |image|, |d.base|, pos);
    }
  }

  lemma PosStep(items: seq<Item>, k: nat, start: nat, b: nat, pos: nat)
    requires k < |items|
    ensures PosItems(items[k..], k, start, b, pos) == PosItems(items[k + 1..], k + 1, start + ItemSpan(items[k]), b,
      if (k + 1) % SLOTS == 0 then b + (k + 1) / SLOTS else PosItem(items[k], start, pos))
  {
    assert items[k..][1..] == items[k + 1..];
  }

  lemma PosNone(items: seq<Item>, start: nat, b: nat, pos: nat)
    ensures PosItems(items[|items|..], |items|, start, b, pos) == pos
  {
  }

  lemma NoSpans(items: seq<Item>)
    ensures Spans(items[..0]) == 0
  {
  }

  // Where the file position is, in blocks.

  /** After an item that starts at start: its copying ends at the end of the file, if there is any. */
  function PosItem(i: Item, start: nat, pos: nat): nat
    decreases i
  {
    match i.what
    case Sub(FileNode(bytes)) => if bytes == [] then pos else start + Count(|bytes|, MAX_USED)
    case Sub(LinkNode(_)) => start + 1
    case Sub(DirNode(items)) => PosAfter(DirNode(items), start)
    case _ => pos
  }

  /** After the items from slot k on of the directory at b; reading the next block's number leaves it behind a full
      block. */
  function PosItems(items: seq<Item>, k: nat, start: nat, b: nat, pos: nat): nat
    decreases items
  {
    if items == [] then pos
    else
      var p := PosItem(items[0], start, pos);
      PosItems(items[1..], k + 1, start + ItemSpan(items[0]), b, if (k + 1) % SLOTS == 0 then b + (k + 1) / SLOTS
        else p)
  }

  /** After copy_dir to block b. */
  function PosAfter(n: Node, b: nat): nat
    decreases n
  {
    match n
    case DirNode(items) => PosItems(items, 0, b + Count(|items|, SLOTS), b, b + Count(|items|, SLOTS))
    case _ => b
  }

  // Which chains the blocks belong to.

  /** A chain of a file, directory or symlink: its first block and its length. */
  datatype Extent = Extent(first: nat, length: nat)

  function ExtentsOf(n: Node, b: nat): seq<Extent>
    decreases n, 1
  {
    match n
    case FileNode(bytes) => if bytes == [] then [] else [Extent(b, Count(|bytes|, MAX_USED))]
    case LinkNode(_) => [Extent(b, 1)]
    case DirNode(items) => [Extent(b, Count(|items|, SLOTS))] + ItemExtents(items, b + Count(|items|, SLOTS))
  }

  function ItemExtents(items: seq<Item>, b: nat): seq<Extent>
    decreases items, 0
  {
    if items == [] then [] else ExtentsOfItem(items[0], b) + ItemExtents(items[1..], b + ItemSpan(items[0]))
  }

  function ExtentsOfItem(i: Item, b: nat): seq<Extent>
    decreases i, 2
  {
    match i.what
    case Sub(node) => ExtentsOf(node, b)
    case _ => []
  }

  /** The extents follow each other from block `from` to block `to`. */
  predicate Tiles(es: seq<Extent>, from: nat, to: nat) {
    if es == [] then from == to
    else es[0].first == from && es[0].length > 0 && Tiles(es[1..], from + es[0].length, to)
  }

  lemma {:induction false} TilesConcat(es: seq<Extent>, fs: seq<Extent>, from: nat, mid: nat, to: nat)
    requires Tiles(es, from, mid) && Tiles(fs, mid, to)
    ensures Tiles(es + fs, from, to)
  {
    if es == [] {
      assert es + fs == fs;
    } else {
      assert (es + fs)[1..] == es[1..] + fs;
      TilesConcat(es[1..], fs, from + es[0].length, mid, to);
    }
  }

  lemma {:induction false} ExtentsTile(n: Node, b: nat)
    ensures Tiles(ExtentsOf(n, b), b, b + Span(n))
    decreases n, 1
  {
    match n
    case FileNode(bytes) =>
      if bytes != [] { OneTile(b, Count(|bytes|, MAX_USED)); }
    case LinkNode(_) => OneTile(b, 1);
    case DirNode(items) =>
      var own := Count(|items|, SLOTS);
      OneTile(b, own);
      ItemExtentsTile(items, b + own);
      TilesConcat([Extent(b, own)], ItemExtents(items, b + own), b, b + own, b + own + Spans(items));
  }

  lemma OneTile(b: nat, n: nat)
    requires n > 0
    ensures Tiles([Extent(b, n)], b, b + n)
  {
    assert [Extent(b, n)][1..] == [];
  }

  lemma {:induction false} ItemExtentsTile(items: seq<Item>, b: nat)
    ensures Tiles(ItemExtents(items, b), b, b + Spans(items))
    decreases items, 0
  {
    if items != [] {
      ExtentsOfItemTile(items[0], b);
      ItemExtentsTile(items[1..], b + ItemSpan(items[0]));
      TilesConcat(ExtentsOfItem(items[0], b), ItemExtents(items[1..], b + ItemSpan(items[0])), b,
        b + ItemSpan(items[0]), b + Spans(items));
    }
  }

  lemma {:induction false} ExtentsOfItemTile(i: Item, b: nat)
    ensures Tiles(ExtentsOfItem(i, b), b, b + ItemSpan(i))
    decreases i, 2
  {
    match i.what
    case Sub(node) => ExtentsTile(node, b);
    case _ =>
  }

  predicate InExtent(x: nat, e: Extent) { e.first <= x < e.first + e.length }

  /** Tiles leave no block out and share none. */
  lemma {:induction false} TilesPartition(es: seq<Extent>, from: nat, to: nat, x: nat)
    requires Tiles(es, from, to)
    ensures from <= to
    ensures from <= x < to <==> exists i :: 0 <= i < |es| && InExtent(x, es[i])
    ensures forall i, j :: 0 <= i < j < |es| ==> !(InExtent(x, es[i]) && InExtent(x, es[j]))
  {
    if es != [] {
      TilesPartition(es[1..], from + es[0].length, to, x);
      assert forall i :: 0 < i < |es| ==> es[i] == es[1..][i - 1];
      if exists i :: 0 <= i < |es[1..]| && InExtent(x, es[1..][i]) {
        var i :| 0 <= i < |es[1..]| && InExtent(x, es[1..][i]);
        assert InExtent(x, es[i + 1]);
      }
      assert InExtent(x, es[0]) <==> from <= x < from + es[0].length;
      forall i, j | 0 <= i < j < |es| ensures !(InExtent(x, es[i]) && InExtent(x, es[j])) {
        assert es[j] == es[1..][j - 1];
      }
    }
  }

  /** The blocks of an extent are one chain that ends in 0. */
  ghost predicate ChainIn(image: seq<Block>, e: Extent) {
    e.first + e.length <= |image|
    && forall x :: e.first <= x < e.first + e.length ==>
      NextOf(image[x]) == if x == e.first + e.length - 1 then 0 else x + 1
  }

  lemma {:induction false} LayoutChains(n: Node, b: nat, dent: nat, parent: nat, base: seq<Block>, rest: seq<Block>)
    requires |base| == b
    ensures forall e :: e in ExtentsOf(n, b) ==> ChainIn(base + Layout(n, b, dent, parent) + rest, e)
    decreases n, 1
  {
    match n
    case FileNode(bytes) =>
      ChainIs(bytes, MAX_USED, b);
      FileChain(Chain(bytes, MAX_USED, b), b, base, rest);
    case LinkNode(target) =>
      assert Layout(n, b, dent, parent) == [Data(Link(target, 0))];
    case DirNode(items) =>
      var own := Count(|items|, SLOTS);
      var es := Entries(items, b + own, dent, parent);
      ChainIs(es, SLOTS, b);
      DirChain(es, b, base, LayoutItems(items, b + own, b, 0, dent), rest);
      var dir := SlotBlocks(Chain(es, SLOTS, b));
      LayoutItemsChains(items, b + own, b, 0, dent, base + dir, rest);
      hide Chain, SlotBlocks, LayoutItems, ItemExtents, Entries, Count, ChainIn;
      assert base + (dir + LayoutItems(items, b + own, b, 0, dent)) + rest ==
        (base + dir) + LayoutItems(items, b + own, b, 0, dent) + rest;
  }

  lemma FileChain(c: seq<Link<Byte>>, b: nat, base: seq<Block>, rest: seq<Block>)
    requires |base| == b && forall i :: 0 <= i < |c| ==> c[i].next == if i == |c| - 1 then 0 else b + i + 1
    ensures ChainIn(base + DataBlocks(c) + rest, Extent(b, |c|))
  {
    var image := base + DataBlocks(c) + rest;
    forall x | b <= x < b + |c| ensures NextOf(image[x]) == if x == b + |c| - 1 then 0 else x + 1 {
      assert image[x] == Data(c[x - b]);
    }
  }

  lemma DirChain(es: seq<Entry>, b: nat, base: seq<Block>, below: seq<Block>, rest: seq<Block>)
    requires |base| == b
    ensures ChainIn(base + (SlotBlocks(Chain(es, SLOTS, b)) + below) + rest, Extent(b, Count(|es|, SLOTS)))
  {
    ChainIs(es, SLOTS, b);
    var c := Chain(es, SLOTS, b);
    var image := base + (SlotBlocks(c) + below) + rest;
    hide Chain, Count;
    forall x | b <= x < b + |c| ensures NextOf(image[x]) == if x == b + |c| - 1 then 0 else x + 1 {
      assert image[x] == Slots(c[x - b]);
    }
  }

  lemma {:induction false} LayoutItemsChains(items: seq<Item>, start: nat, dir: nat, i: nat, self: nat,
                                             base: seq<Block>, rest: seq<Block>)
    requires |base| == start
    ensures forall e :: e in ItemExtents(items, start) ==>
      ChainIn(base + LayoutItems(items, start, dir, i, self) + rest, e)
    decreases items, 0
  {
    if items != [] {
      hide ChainIn, DentAt;
      var first := LayoutItem(items[0], start, DentAt(dir, i), self);
      var more := LayoutItems(items[1..], start + ItemSpan(items[0]), dir, i + 1, self);
      LayoutItemSize(items[0], start, DentAt(dir, i), self);
      LayoutItemChains(items[0], start, DentAt(dir, i), self, base, more + rest);
      LayoutItemsChains(items[1..], start + ItemSpan(items[0]), dir, i + 1, self, base + first, rest);
      assert base + (first + more) + rest == base + first + (more + rest);
      assert base + (first + more) + rest == (base + first) + more + rest;
    }
  }

  lemma {:induction false} LayoutItemChains(i: Item, start: nat, dent: nat, self: nat, base: seq<Block>,
                                            rest: seq<Block>)
    requires |base| == start
    ensures forall e :: e in ExtentsOfItem(i, start) ==> ChainIn(base + LayoutItem(i, start, dent, self) + rest, e)
    decreases i, 2
  {
    match i.what
    case Sub(node) => LayoutChains(node, start, dent, self, base, rest);
    case _ =>
  }

  // Reading: rd-explorer.

  function NextAt(image: seq<Block>, b: nat): nat { if b < |image| then NextOf(image[b]) else 0 }

  /** find_dir_entry from slot i of block b on; . and .. lead to the entry of the directory they name. */
  function Find(image: seq<Block>, b: nat, i: nat, name: Name): Option<Entry>
    requires i <= SLOTS
    decreases |image| - b, SLOTS - i
  {
    if i < SLOTS then
      var e := EntryAt(image, b * BLOCK_SIZE + i * ENTRY_SIZE);
      if e == None || e.value.data == 0 then None
      else if e.value.name == name then (if name.Other? then e else EntryAt(image, e.value.data))
      else Find(image, b, i + 1, name)
    else
      var next := NextAt(image, b);
      if b < next && b < |image| then Find(image, next, 0, name) else None
  }

  /** The bytes of a block, zeroes where it holds none. */
  function ByteAt(image: seq<Block>, b: nat, i: nat): Byte
  {
    if b < |image| && image[b].Data? && i < |image[b].d.payload| then image[b].d.payload[i] else 0
  }

  function BytesAt(image: seq<Block>, b: nat, n: nat): (s: seq<Byte>)
    ensures |s| == n
  {
    seq<Byte>(n, i requires 0 <= i < n => ByteAt(image, b, i))
  }

  /** print_file: n bytes along the chain at b. */
  function Gather(image: seq<Block>, b: nat, n: nat): (s: seq<Byte>)
    ensures |s| == n
    decreases n
  {
    if n < MAX_USED then BytesAt(image, b, n)
    else BytesAt(image, b, MAX_USED) + Gather(image, NextAt(image, b), n - MAX_USED)
  }

  /** Chains lead forward. */
  ghost predicate Forward(image: seq<Block>) {
    forall b :: 0 <= b < |image| ==> NextOf(image[b]) == 0 || b < NextOf(image[b])
  }

  method FindDirEntry(image: seq<Block>, block: nat, name: Name) returns (found: Option<Entry>)
    requires Forward(image)
    ensures found == Find(image, block, 0, name)
  {
    hide EntryAt, NextAt, Forward;
    var b: nat := block;
    while true
      invariant Find(image, b, 0, name) == Find(image, block, 0, name)
      decreases |image| - b
    {
      var i := 0;
      while i < SLOTS
        invariant i <= SLOTS && Find(image, b, i, name) == Find(image, block, 0, name)
      {
        var e := EntryAt(image, b * BLOCK_SIZE + i * ENTRY_SIZE);
        if e == None || e.value.data == 0 { return None; }
        if e.value.name == name {
          if !name.Other? { return EntryAt(image, e.value.data); }
          return e;
        }
        i := i + 1;
      }
      NextForward(image, b);
      var next := NextAt(image, b);
      if next == 0 { return None; }
      b := next;
    }
  }

  lemma NextForward(image: seq<Block>, b: nat)
    requires Forward(image)
    ensures NextAt(image, b) == 0 || (b < NextAt(image, b) && b < |image|)
  {
  }

  method PrintFile(image: seq<Block>, entry: Entry) returns (out: seq<Byte>)
    ensures out == if entry.data == 0 then [] else Gather(image, entry.data, entry.size)
  {
    out := [];
    if entry.data != 0 { out := PrintChain(image, entry.data, entry.size); }
  }

  /** The outer loop of print_file: block after block. */
  method PrintChain(image: seq<Block>, block: nat, n: nat) returns (out: seq<Byte>)
    ensures out == Gather(image, block, n)
  {
    hide ByteAt, NextAt, Gather, BytesAt;
    out := [];
    var size: nat, b: nat := n, block;
    GatherStep(image, b, size);
    while size >= MAX_USED
      invariant out + Gather(image, b, size) == Gather(image, block, n)
      decreases size
    {
      GatherStep(image, b, size);
      var bytes := PrintBlock(image, b, size);
      b := NextAt(image, b);
      size := size - MAX_USED;
      Joined(out, bytes, Gather(image, b, size));
      out := out + bytes;
    }
    GatherStep(image, b, size);
    var bytes := PrintBlock(image, b, size);
    out := out + bytes;
  }

  lemma Joined(a: seq<Byte>, b: seq<Byte>, c: seq<Byte>)
    ensures a + (b + c) == a + b + c
  {
  }

  lemma GatherStep(image: seq<Block>, b: nat, n: nat)
    ensures Gather(image, b, n) ==
      if n < MAX_USED then BytesAt(image, b, n)
      else BytesAt(image, b, MAX_USED) + Gather(image, NextAt(image, b), n - MAX_USED)
  {
  }

  /** The inner loop of print_file: the bytes of one block that are left to print. */
  method PrintBlock(image: seq<Block>, b: nat, size: nat) returns (bytes: seq<Byte>)
    ensures bytes == BytesAt(image, b, if size < MAX_USED then size else MAX_USED)
  {
    hide ByteAt;
    bytes := [];
    var i: nat := 0;
    while i < MAX_USED
      invariant i <= MAX_USED && i <= size && bytes == BytesAt(image, b, i)
    {
      if size == i { return; }
      bytes := bytes + [ByteAt(image, b, i)];
      i := i + 1;
    }
  }

  /** Walking the chain of a file gives its bytes back. */
  lemma {:induction false} GatherChain(base: seq<Block>, bytes: seq<Byte>, rest: seq<Block>)
    ensures Gather(base + DataBlocks(Chain(bytes, MAX_USED, |base|)) + rest, |base|, |bytes|) == bytes
    decreases |bytes|
  {
    var b := |base|;
    if |bytes| <= MAX_USED {
      assert DataBlocks(Chain(bytes, MAX_USED, b)) == [Data(Link(bytes, 0))];
      GatherLast(base, bytes, rest);
    } else {
      var first, more := [Data(Link(bytes[..MAX_USED], b + 1))], DataBlocks(Chain(bytes[MAX_USED..], MAX_USED, b + 1));
      assert DataBlocks(Chain(bytes, MAX_USED, b)) == first + more;
      hide DataBlocks, Chain;
      Regroup(base, first, more, rest);
      Regroup2(base, first, more, rest);
      GatherChain(base + first, bytes[MAX_USED..], rest);
      GatherFirst(base, bytes, more + rest);
    }
  }

  lemma GatherLast(base: seq<Block>, bytes: seq<Byte>, rest: seq<Block>)
    requires |bytes| <= MAX_USED
    ensures Gather(base + [Data(Link(bytes, 0))] + rest, |base|, |bytes|) == bytes
  {
    var image := base + [Data(Link(bytes, 0))] + rest;
    assert image[|base|] == Data(Link(bytes, 0));
    assert BytesAt(image, |base|, |bytes|) == bytes;
    if |bytes| == MAX_USED { assert Gather(image, NextAt(image, |base|), 0) == []; }
  }

  lemma GatherFirst(base: seq<Block>, bytes: seq<Byte>, rest: seq<Block>)
    requires |bytes| > MAX_USED
    requires var image := base + [Data(Link(bytes[..MAX_USED], |base| + 1))] + rest;
      Gather(image, |base| + 1, |bytes| - MAX_USED) == bytes[MAX_USED..]
    ensures Gather(base + [Data(Link(bytes[..MAX_USED], |base| + 1))] + rest, |base|, |bytes|) == bytes
  {
    var image := base + [Data(Link(bytes[..MAX_USED], |base| + 1))] + rest;
    assert image[|base|] == Data(Link(bytes[..MAX_USED], |base| + 1));
    assert BytesAt(image, |base|, MAX_USED) == bytes[..MAX_USED];
    assert bytes == bytes[..MAX_USED] + bytes[MAX_USED..];
  }

  /** Looking up the first entry with a name, from slot k on. */
  lemma {:induction false} FindNamed(image: seq<Block>, b: nat, es: seq<Entry>, k: nat, t: nat, name: Name)
    requires k <= t < |es| && es[t].name == name && (forall j :: k <= j < t ==> es[j].name != name)
    requires forall j: nat :: j <= |es| ==> Reads(image, b, es, j)
    requires forall j :: 0 <= j < |es| ==> es[j].data != 0
    ensures Find(image, b + k / SLOTS, k % SLOTS, name) == if name.Other? then Some(es[t])
      else EntryAt(image, es[t].data)
    decreases t - k
  {
    hide Find, Reads;
    FindStep(image, b, es, k, name);
    if k < t { FindNamed(image, b, es, k + 1, t, name); }
  }

  /** One slot of a lookup. */
  lemma FindStep(image: seq<Block>, b: nat, es: seq<Entry>, k: nat, name: Name)
    requires k < |es| && Reads(image, b, es, k) && Reads(image, b, es, k + 1) && es[k].data != 0
    ensures Find(image, b + k / SLOTS, k % SLOTS, name) ==
      if es[k].name == name then (if name.Other? then Some(es[k]) else EntryAt(image, es[k].data))
      else if k + 1 < |es| || (k + 1) % SLOTS != 0 then Find(image, b + (k + 1) / SLOTS, (k + 1) % SLOTS, name)
      else None
  {
    SlotPlace(b, k);
    NextSlot(b, k);
    hide EntryAt, DentAt, NextOf;
  }

  lemma SlotPlace(b: nat, k: nat)
    ensures DentAt(b, k) == (b + k / SLOTS) * BLOCK_SIZE + k % SLOTS * ENTRY_SIZE
  {
  }

  lemma NextSlot(b: nat, k: nat)
    ensures if k % SLOTS == SLOTS - 1 then (k + 1) % SLOTS == 0 && (k + 1) / SLOTS == k / SLOTS + 1
      else (k + 1) % SLOTS == k % SLOTS + 1 && (k + 1) / SLOTS == k / SLOTS
  {
  }

  /** A name that is not there is not found. */
  lemma {:induction false} FindMissing(image: seq<Block>, b: nat, es: seq<Entry>, k: nat, name: Name)
    requires k < |es| || (k == |es| && k % SLOTS != 0)
    requires forall j :: k <= j < |es| ==> es[j].name != name
    requires forall j: nat :: j <= |es| ==> Reads(image, b, es, j)
    requires forall j :: 0 <= j < |es| ==> es[j].data != 0
    ensures Find(image, b + k / SLOTS, k % SLOTS, name) == None
    decreases |es| - k
  {
    hide Find, Reads;
    if k < |es| {
      FindStep(image, b, es, k, name);
      if k + 1 < |es| || (k + 1) % SLOTS != 0 { FindMissing(image, b, es, k + 1, name); }
    } else {
      FindEnd(image, b, es, name);
    }
  }

  lemma FindEnd(image: seq<Block>, b: nat, es: seq<Entry>, name: Name)
    requires |es| % SLOTS != 0 && Reads(image, b, es, |es|)
    ensures Find(image, b + |es| / SLOTS, |es| % SLOTS, name) == None
  {
    SlotPlace(b, |es|);
    hide EntryAt, DentAt, NextOf;
  }

  predicate NamesOk(n: Node)
    decreases n
  {
    match n
    case DirNode(items) =>
      && (forall i, j :: 0 <= i < j < |items| ==> items[i].name != items[j].name)
      && forall i :: 0 <= i < |items| ==> ItemNamesOk(items[i])
    case _ => true
  }

  predicate ItemNamesOk(i: Item)
    decreases i
  {
    match i.what
    case Sub(node) => NamesOk(node)
    case _ => true
  }

  /** What a lookup finds for an item: . and .. lead to directory entries, files and symlinks to their bytes,
      directories to a directory that shows its own items. */
  ghost predicate ShowsItem(image: seq<Block>, item: Item, found: Option<Entry>, at: nat, self: nat, parent: nat)
    decreases item
  {
    match item.what
    case Self => found == EntryAt(image, self)
    case Parent => found == EntryAt(image, parent)
    case Special => found == None
    case Sub(FileNode(bytes)) =>
      found.Some? && found.value.kind == Reg && found.value.data != 0 && found.value.size == |bytes|
      && Gather(image, found.value.data, found.value.size) == bytes
    case Sub(LinkNode(target)) =>
      found.Some? && found.value.kind == Lnk && found.value.data != 0 && found.value.size == |target|
      && Gather(image, found.value.data, found.value.size) == target
    case Sub(DirNode(items)) =>
      found.Some? && found.value.kind == Directory && found == EntryAt(image, at)
      && Shows(image, items, found.value.data, at, self)
  }

  /** The directory at b finds exactly its items, and shows each. */
  ghost predicate Shows(image: seq<Block>, items: seq<Item>, b: nat, self: nat, parent: nat)
    decreases items
  {
    && (forall k :: 0 <= k < |items| ==>
      ShowsItem(image, items[k], Find(image, b, 0, items[k].name), DentAt(b, k), self, parent))
    && (forall name: Name :: (forall k :: 0 <= k < |items| ==> items[k].name != name) ==>
      Find(image, b, 0, name) == None)
  }

  /** The blocks of item k within those below a directory. */
  lemma {:induction false} LayoutSplit(items: seq<Item>, k: nat, start: nat, dir: nat, i: nat, self: nat)
    requires k < |items|
    ensures LayoutItems(items, start, dir, i, self)
      == LayoutItems(items[..k], start, dir, i, self) + LayoutItem(items[k], start + Spans(items[..k]),
        DentAt(dir, i + k), self)
        + LayoutItems(items[k + 1..], start + Spans(items[..k + 1]), dir, i + k + 1, self)
    decreases items
  {
    assert items == items[..k + 1] + items[k + 1..];
    hide LayoutItems, LayoutItem, DentAt, Spans;
    LayoutConcat(items[..k + 1], items[k + 1..], start, dir, i, self);
    LayoutSnoc(items, k, start, dir, i, self);
  }

  lemma {:induction false} LayoutConcat(xs: seq<Item>, ys: seq<Item>, start: nat, dir: nat, i: nat, self: nat)
    ensures LayoutItems(xs + ys, start, dir, i, self)
      == LayoutItems(xs, start, dir, i, self) + LayoutItems(ys, start + Spans(xs), dir, i + |xs|, self)
    decreases xs
  {
    hide LayoutItem, LayoutItems, DentAt;
    if xs == [] {
      assert xs + ys == ys;
      LayoutNone(start, dir, i, self);
    } else {
      assert (xs + ys)[1..] == xs[1..] + ys;
      LayoutConcat(xs[1..], ys, start + ItemSpan(xs[0]), dir, i + 1, self);
      LayoutCons(xs, start, dir, i, self);
      LayoutCons(xs + ys, start, dir, i, self);
    }
  }

  lemma LayoutNone(start: nat, dir: nat, i: nat, self: nat)
    ensures LayoutItems([], start, dir, i, self) == []
  {
  }

  lemma LayoutCons(items: seq<Item>, start: nat, dir: nat, i: nat, self: nat)
    requires items != []
    ensures LayoutItems(items, start, dir, i, self)
      == LayoutItem(items[0], start, DentAt(dir, i), self)
        + LayoutItems(items[1..], start + ItemSpan(items[0]), dir, i + 1, self)
  {
  }

  /** The directory es at b can be read, and its entries name the items. */
  ghost predicate DirOk(image: seq<Block>, b: nat, es: seq<Entry>, items: seq<Item>) {
    && |es| == |items| > 0 && (forall j: nat :: j <= |es| ==> Reads(image, b, es, j))
    && (forall j :: 0 <= j < |es| ==> es[j].data != 0 && es[j].name == items[j].name)
  }

  /** The entries of a laid-out directory. */
  lemma DirReads(items: seq<Item>, b: nat, dent: nat, parent: nat, base: seq<Block>, rest: seq<Block>)
    requires |base| == b > 0 && dent > 0 && parent > 0 && items != []
    ensures DirOk(base + Layout(DirNode(items), b, dent, parent) + rest, b,
      Entries(items, b + Count(|items|, SLOTS), dent, parent), items)
  {
    var start := b + Count(|items|, SLOTS);
    var es := Entries(items, start, dent, parent);
    var dir, below := SlotBlocks(Chain(es, SLOTS, b)), LayoutItems(items, start, b, 0, dent);
    assert Layout(DirNode(items), b, dent, parent) == dir + below;
    forall j | 0 <= j < |es|
      ensures es[j].data != 0 && es[j].name == items[j].name
    {
      EntriesAt(items, start, dent, parent, j);
    }
    hide Entries, SlotBlocks, Chain, LayoutItems, Reads, Layout;
    Regroup(base, dir, below, rest);
    forall j: nat | j <= |es|
      ensures Reads(base + (dir + below) + rest, b, es, j)
    {
      ReadChain(base, es, below + rest, j);
    }
  }

  /** Where item k of a laid-out directory lies in the whole image. */
  lemma ItemPlace(items: seq<Item>, k: nat, b: nat, dent: nat, parent: nat, base: seq<Block>, rest: seq<Block>)
      returns (before: seq<Block>, after: seq<Block>)
    requires |base| == b && k < |items|
    ensures var start := b + Count(|items|, SLOTS) + Spans(items[..k]);
      |before| == start
      && base + Layout(DirNode(items), b, dent, parent) + rest ==
        before + LayoutItem(items[k], start, DentAt(b, k), dent) + after
  {
    var first := b + Count(|items|, SLOTS);
    var es := Entries(items, first, dent, parent);
    ChainIs(es, SLOTS, b);
    LayoutItemsSize(items[..k], first, b, 0, dent);
    LayoutSplit(items, k, first, b, 0, dent);
    var dir, below := SlotBlocks(Chain(es, SLOTS, b)), LayoutItems(items, first, b, 0, dent);
    assert Layout(DirNode(items), b, dent, parent) == dir + below;
    hide Entries, SlotBlocks, Chain, LayoutItems, Layout, LayoutItem, DentAt, Spans, Count;
    var lower, item, upper := LayoutItems(items[..k], first, b, 0, dent),
      LayoutItem(items[k], first + Spans(items[..k]), DentAt(b, k), dent),
        LayoutItems(items[k + 1..], first + Spans(items[..k + 1]), b, k + 1, dent);
    before, after := base + dir + lower, upper + rest;
    Around(base, dir, lower, item, upper, rest);
  }

  lemma Around(a: seq<Block>, b: seq<Block>, c: seq<Block>, d: seq<Block>, e: seq<Block>, f: seq<Block>)
    ensures a + (b + (c + d + e)) + f == (a + b + c) + d + (e + f)
  {
  }

  /** The finished entry of item k, and how to find it. */
  lemma LookupItem(items: seq<Item>, k: nat, b: nat, dent: nat, parent: nat, base: seq<Block>, rest: seq<Block>)
    requires |base| == b > 0 && dent > 0 && parent > 0 && k < |items| && NamesOk(DirNode(items))
    ensures var image, start := base + Layout(DirNode(items), b, dent, parent) + rest,
      b + Count(|items|, SLOTS) + Spans(items[..k]);
      var e := Draft(items[k], DataOf(items[k], start, dent, parent));
      && EntryAt(image, DentAt(b, k)) == Some(e)
      && Find(image, b, 0, items[k].name) == if items[k].name.Other? then Some(e) else EntryAt(image, e.data)
  {
    hide NamesOk, Layout, Find, EntryAt, DirOk, Entries, Count, Spans, DataOf, DentAt, Draft;
    var first := b + Count(|items|, SLOTS);
    EntriesAt(items, first, dent, parent, k);
    DirReads(items, b, dent, parent, base, rest);
    LookupIn(base + Layout(DirNode(items), b, dent, parent) + rest, items, k, b, Entries(items, first, dent, parent));
  }

  lemma LookupIn(image: seq<Block>, items: seq<Item>, k: nat, b: nat, es: seq<Entry>)
    requires k < |items| && NamesOk(DirNode(items)) && DirOk(image, b, es, items)
    ensures EntryAt(image, DentAt(b, k)) == Some(es[k])
    ensures Find(image, b, 0, items[k].name) == if items[k].name.Other? then Some(es[k]) else EntryAt(image, es[k].data)
  {
    hide NamesOk, Find, EntryAt, Reads, DentAt;
    DistinctNames(items, k);
    FindNamed(image, b, es, 0, k, items[k].name);
    ReadsEntry(image, b, es, k);
  }

  lemma ReadsEntry(image: seq<Block>, b: nat, es: seq<Entry>, k: nat)
    requires k < |es| && Reads(image, b, es, k)
    ensures EntryAt(image, DentAt(b, k)) == Some(es[k])
  {
    hide EntryAt, DentAt, NextOf;
  }

  lemma DistinctNames(items: seq<Item>, k: nat)
    requires k < |items| && NamesOk(DirNode(items))
    ensures forall j :: 0 <= j < k ==> items[j].name != items[k].name
  {
  }

  /** A name no item has is not found. */
  lemma LookupMissing(items: seq<Item>, name: Name, b: nat, dent: nat, parent: nat, base: seq<Block>, rest: seq<Block>)
    requires |base| == b > 0 && dent > 0 && parent > 0 && items != []
    requires forall k :: 0 <= k < |items| ==> items[k].name != name
    ensures Find(base + Layout(DirNode(items), b, dent, parent) + rest, b, 0, name) == None
  {
    hide Layout, Find, EntryAt, Reads, Entries, Count;
    DirReads(items, b, dent, parent, base, rest);
    assert DirOk(base + Layout(DirNode(items), b, dent, parent) + rest, b,
      Entries(items, b + Count(|items|, SLOTS), dent, parent), items);
    FindMissing(base + Layout(DirNode(items), b, dent, parent) + rest, b,
      Entries(items, b + Count(|items|, SLOTS), dent, parent), 0, name);
  }

  /** Every directory laid out in an image finds its items and shows them. */
  lemma {:induction false} LayoutShows(items: seq<Item>, b: nat, dent: nat, parent: nat, base: seq<Block>,
                                       rest: seq<Block>)
    requires |base| == b > 0 && dent > 0 && parent > 0 && NodeOk(DirNode(items)) && NamesOk(DirNode(items))
    ensures Shows(base + Layout(DirNode(items), b, dent, parent) + rest, items, b, dent, parent)
    decreases items, 1
  {
    assert items != [];
    hide Layout, Find, EntryAt, ShowsItem, Count, DentAt, NodeOk, NamesOk, ItemOk, ItemNamesOk;
    var image := base + Layout(DirNode(items), b, dent, parent) + rest;
    forall k | 0 <= k < |items|
      ensures ShowsItem(image, items[k], Find(image, b, 0, items[k].name), DentAt(b, k), dent, parent)
    {
      ItemShows(items, k, b, dent, parent, base, rest);
    }
    forall name: Name | (forall k :: 0 <= k < |items| ==> items[k].name != name)
      ensures Find(image, b, 0, name) == None
    {
      LookupMissing(items, name, b, dent, parent, base, rest);
    }
  }

  lemma {:induction false} ItemShows(items: seq<Item>, k: nat, b: nat, dent: nat, parent: nat, base: seq<Block>,
                                     rest: seq<Block>)
    requires |base| == b > 0 && dent > 0 && parent > 0 && NodeOk(DirNode(items)) && NamesOk(DirNode(items))
      && k < |items|
    ensures var image := base + Layout(DirNode(items), b, dent, parent) + rest;
      ShowsItem(image, items[k], Find(image, b, 0, items[k].name), DentAt(b, k), dent, parent)
    decreases items, 1, 0
  {
    hide Layout, LayoutItem, Find, EntryAt, ShowsItem, Count, Spans, DentAt, NodeOk, NamesOk, ItemNamesOk, ItemOk,
      SubShown, Draft, DataOf;
    var start := b + Count(|items|, SLOTS) + Spans(items[..k]);
    ItemsOk(items, k);
    LookupItem(items, k, b, dent, parent, base, rest);
    if items[k].what.Sub? { ItemSubShown(items, k, b, dent, parent, base, rest); }
    ShowsFound(base + Layout(DirNode(items), b, dent, parent) + rest, items[k], start, DentAt(b, k), dent, parent);
  }

  lemma {:induction false} ItemSubShown(items: seq<Item>, k: nat, b: nat, dent: nat, parent: nat, base: seq<Block>,
                                        rest: seq<Block>)
    requires |base| == b > 0 && dent > 0 && parent > 0 && NodeOk(DirNode(items)) && NamesOk(DirNode(items))
      && k < |items|
    requires items[k].what.Sub?
    ensures SubShown(base + Layout(DirNode(items), b, dent, parent) + rest, items[k],
      b + Count(|items|, SLOTS) + Spans(items[..k]), DentAt(b, k), dent)
    decreases items, 0
  {
    hide Layout, LayoutItem, Count, Spans, DentAt, NodeOk, NamesOk, ItemNamesOk, ItemOk, SubShown;
    ItemsOk(items, k);
    DentPositive(b, k);
    var before, after := ItemPlace(items, k, b, dent, parent, base, rest);
    SubShows(items[k], |before|, DentAt(b, k), dent, before, after,
      base + Layout(DirNode(items), b, dent, parent) + rest);
  }

  lemma ItemsOk(items: seq<Item>, k: nat)
    requires NodeOk(DirNode(items)) && NamesOk(DirNode(items)) && k < |items|
    ensures ItemOk(items[k]) && ItemNamesOk(items[k])
  {
  }

  /** The finished entry leads to what lies at its start. */
  lemma ShowsFound(image: seq<Block>, item: Item, start: nat, at: nat, self: nat, parent: nat)
    requires ItemOk(item) && start > 0 && (item.what.Sub? ==> SubShown(image, item, start, at, self))
    requires item.what.Sub? ==> EntryAt(image, at) == Some(Draft(item, DataOf(item, start, self, parent)))
    ensures var e := Draft(item, DataOf(item, start, self, parent));
      ShowsItem(image, item, if item.name.Other? then Some(e) else EntryAt(image, e.data), at, self, parent)
  {
    hide EntryAt, Gather, Shows;
    NoBytes(image, ZERO_ENTRY);
  }

  lemma NoBytes(image: seq<Block>, b: nat)
    ensures Gather(image, b, 0) == []
  {
  }

  lemma DentPositive(b: nat, k: nat)
    requires b > 0
    ensures DentAt(b, k) > 0
  {
  }

  /** What lies at start is the item's bytes or directory. */
  ghost predicate SubShown(image: seq<Block>, item: Item, start: nat, at: nat, self: nat)
    requires item.what.Sub?
  {
    match item.what.node
    case FileNode(bytes) => bytes != [] ==> Gather(image, start, |bytes|) == bytes
    case LinkNode(target) => Gather(image, start, |target|) == target
    case DirNode(sub) => Shows(image, sub, start, at, self)
  }

  /** What lies at its start shows a file, a symlink or a directory. */
  lemma {:induction false} SubShows(item: Item, start: nat, at: nat, self: nat, before: seq<Block>, after: seq<Block>,
                                    image: seq<Block>)
    requires item.what.Sub? && ItemOk(item) && ItemNamesOk(item) && start > 0 && self > 0 && at > 0
    requires |before| == start && image == before + LayoutItem(item, start, at, self) + after
    ensures SubShown(image, item, start, at, self)
    decreases item, 2
  {
    match item.what.node
    case FileNode(bytes) => GatherChain(before, bytes, after);
    case LinkNode(target) =>
      assert Chain(target, MAX_USED, start) == [Link(target, 0)];
      GatherChain(before, target, after);
      assert DataBlocks([Link(target, 0)]) == [Data(Link(target, 0))];
    case DirNode(sub) => LayoutShows(sub, start, at, self, before, after);
  }

  // The whole image.

  function RootEntry(data: nat): Entry { Entry(Other("mario"), Directory, 0, 0, data) }

  /** The super block before anything else is known. */
  function Blank(): Block { Super(RootEntry(0), 0, 0, 0) }

  /** The free chain from block `from` to the end of an image of nr blocks. */
  function FreeBlocks(from: nat, nr: nat): (r: seq<Block>)
    requires from <= nr
    ensures |r| == nr - from
  {
    seq(nr - from, i requires 0 <= i < nr - from => Free((from + i + 1) % nr))
  }

  /** image with blks written over it from block pos on. */
  function Over(image: seq<Block>, pos: nat, blks: seq<Block>): (r: seq<Block>)
    requires pos <= |image|
    ensures |r| == if pos + |blks| > |image| then pos + |blks| else |image|
  {
    image[..pos] + blks + if pos + |blks| <= |image| then image[pos + |blks|..] else []
  }

  lemma FreePrefix(from: nat, nr: nat, k: nat)
    requires from + k < nr
    ensures FreeBlocks(from, nr)[..k + 1] == FreeBlocks(from, nr)[..k] + [Free((from + k + 1) % nr)]
  {
  }

  lemma OverNothing(image: seq<Block>, pos: nat)
    requires pos <= |image|
    ensures Over(image, pos, []) == image
  {
  }

  lemma OverMore(image: seq<Block>, pos: nat, blks: seq<Block>, b: Block)
    requires pos <= |image|
    ensures var o, p := Over(image, pos, blks), pos + |blks|;
      Over(image, pos, blks + [b]) == if p < |o| then o[p := b] else o + [b]
  {
  }

  /** decide_nr_block: what was asked for if it is enough, else some room; in whole pages. */
  function Decided(blocks: nat, nr: nat): nat
  {
    var max := MAX_RD_BLOCKS;
    var n :=
      if nr != 0 && nr >= blocks then nr
      else if blocks > max / 2 then Min(blocks + max / 2, max)
      else if blocks > max / 4 then blocks + max / 4
      else if blocks > max / 8 then blocks + max / 8
      else if blocks > max / 16 then blocks + max / 16
      else if blocks > max / 32 then blocks + max / 32
      else if blocks > max / 64 then blocks + max / 64
      else blocks + max / 128;
    (n + BLOCK_PER_PAGE - 1) / BLOCK_PER_PAGE * BLOCK_PER_PAGE
  }

  method DecideNrBlock(blocks: nat, nr: nat) returns (n: nat)
    requires blocks <= MAX_RD_BLOCKS
    ensures n == Decided(blocks, nr) && n % BLOCK_PER_PAGE == 0 && blocks <= n
    ensures nr <= MAX_RD_BLOCKS ==> n <= MAX_RD_BLOCKS
  {
    n := nr;
    if nr == 0 || nr < blocks {
      var max := MAX_RD_BLOCKS;
      if blocks > max / 2 {
        n := Min(blocks + max / 2, max);
      } else if blocks > max / 4 {
        n := blocks + max / 4;
      } else if blocks > max / 8 {
        n := blocks + max / 8;
      } else if blocks > max / 16 {
        n := blocks + max / 16;
      } else if blocks > max / 32 {
        n := blocks + max / 32;
      } else if blocks > max / 64 {
        n := blocks + max / 64;
      } else {
        n := blocks + max / 128;
      }
    }
    n := (n + BLOCK_PER_PAGE - 1) / BLOCK_PER_PAGE * BLOCK_PER_PAGE;
  }

  /** The image the tool is for: super block, tree and free chain, nr blocks in all. */
  function Finished(items: seq<Item>, nr: nat): seq<Block>
  {
    var n := ROOT_BLOCK + Span(DirNode(items));
    if n <= nr then
      [Super(RootEntry(ROOT_BLOCK), nr, nr - n, if nr == n then 0 else n)]
        + Layout(DirNode(items), ROOT_BLOCK, ROOT_INO, ROOT_INO) + FreeBlocks(n, nr)
    else []
  }

  lemma RootPatched(items: seq<Item>)
    ensures Patch([Blank()], ROOT_INO, ROOT_BLOCK) == [Super(RootEntry(ROOT_BLOCK), 0, 0, 0)]
  {
  }

  /** The image the tool writes: the free chain goes where the file position is. */
  function Written(items: seq<Item>, nr: nat): seq<Block>
    requires ROOT_BLOCK + Span(DirNode(items)) <= nr
  {
    var n, p := ROOT_BLOCK + Span(DirNode(items)), EndPos(items, ROOT_BLOCK);
    LayoutSize(DirNode(items), ROOT_BLOCK, ROOT_INO, ROOT_INO);
    EndPosBound(items, ROOT_BLOCK);
    var made := [Super(RootEntry(ROOT_BLOCK), nr, nr - n, if nr == n then 0 else n)]
      + Layout(DirNode(items), ROOT_BLOCK, ROOT_INO, ROOT_INO);
    if nr == n then made else Over(made, p, FreeBlocks(n, nr))
  }

  /** How long the file comes out, in bytes. */
  function FileSize(items: seq<Item>, nr: nat): nat
  {
    var n, p := ROOT_BLOCK + Span(DirNode(items)), EndPos(items, ROOT_BLOCK);
    (if nr <= n || p + (nr - n) < n then n else p + (nr - n)) * BLOCK_SIZE
  }

  /** Filling in the super block last is the same as having filled it in first: the free chain never reaches it. */
  lemma SuperUpdated(made: seq<Block>, items: seq<Item>, pos: nat, n: nat, nr: nat)
    requires n == ROOT_BLOCK + Span(DirNode(items)) <= nr && pos == EndPos(items, ROOT_BLOCK) && 0 < pos <= n == |made|
    requires made == [Super(RootEntry(ROOT_BLOCK), 0, 0, 0)] + Layout(DirNode(items), ROOT_BLOCK, ROOT_INO, ROOT_INO)
    ensures var image := if nr == n then made else Over(made, pos, FreeBlocks(n, nr));
      && |image| > 0 && image[0] == Super(RootEntry(ROOT_BLOCK), 0, 0, 0)
      && image[0 := Super(RootEntry(ROOT_BLOCK), nr, nr - n, if nr == n then 0 else n)] == Written(items, nr)
  {
    hide Layout, EndPos, FreeBlocks;
    var sup := Super(RootEntry(ROOT_BLOCK), nr, nr - n, if nr == n then 0 else n);
    var tree := Layout(DirNode(items), ROOT_BLOCK, ROOT_INO, ROOT_INO);
    assert made[0 := sup] == [sup] + tree;
    OverHead(made, pos, FreeBlocks(n, nr), sup);
  }

  lemma OverHead(image: seq<Block>, pos: nat, blks: seq<Block>, b: Block)
    requires 0 < pos <= |image|
    ensures Over(image, pos, blks)[0] == image[0]
    ensures Over(image, pos, blks)[0 := b] == Over(image[0 := b], pos, blks)
  {
  }

  lemma WrittenSize(items: seq<Item>, nr: nat)
    requires ROOT_BLOCK + Span(DirNode(items)) <= nr
    ensures |Written(items, nr)| * BLOCK_SIZE == FileSize(items, nr)
  {
    hide Layout, EndPos, FreeBlocks;
    LayoutSize(DirNode(items), ROOT_BLOCK, ROOT_INO, ROOT_INO);
    EndPosBound(items, ROOT_BLOCK);
  }

  /** The free chain lands behind the tree exactly when the scan ends at the end, or there is no free chain. */
  lemma FinishedIff(items: seq<Item>, nr: nat)
    requires ROOT_BLOCK + Span(DirNode(items)) <= nr
    ensures Written(items, nr) == Finished(items, nr) <==> EndsAtEnd(items) || nr == ROOT_BLOCK + Span(DirNode(items))
  {
    hide Layout, EndPos, FreeBlocks, EndsAtEnd;
    var n, p := ROOT_BLOCK + Span(DirNode(items)), EndPos(items, ROOT_BLOCK);
    LayoutSize(DirNode(items), ROOT_BLOCK, ROOT_INO, ROOT_INO);
    EndPosBound(items, ROOT_BLOCK);
    EndPosIff(items, ROOT_BLOCK);
    if nr == n {
      assert FreeBlocks(n, nr) == [];
    } else {
      assert |Written(items, nr)| == nr <==> p == n;
    }
    assert |Finished(items, nr)| == nr;
  }

  // Where the scan leaves the file position, told from the tree.

  /** How many items there are up to the last one that has blocks. */
  function Filled(items: seq<Item>): (j: nat)
    ensures j <= |items| && (j > 0 ==> ItemSpan(items[j - 1]) > 0)
    ensures forall i :: j <= i < |items| ==> ItemSpan(items[i]) == 0
    decreases |items|
  {
    if items == [] then 0
    else if ItemSpan(items[|items| - 1]) > 0 then |items|
    else Filled(items[..|items| - 1])
  }

  /** The scan of the directory ends at the end of the file. Either the last item with blocks has its entry in a
      directory block that is not full, and if it is a directory itself, its scan ends there too; or there is no such
      item, and no full directory block is followed by another block. */
  predicate EndsAtEnd(items: seq<Item>)
    decreases items
  {
    var last := Filled(items);
    if last <= |items| / SLOTS * SLOTS then last == 0 && (|items| < SLOTS || |items| % SLOTS == 0)
    else ItemEndsAtEnd(items[last - 1])
  }

  predicate ItemEndsAtEnd(i: Item)
    decreases i
  {
    match i.what
    case Sub(DirNode(sub)) => EndsAtEnd(sub)
    case _ => true
  }

  /** Where the scan of the directory at block b ends. */
  function EndPos(items: seq<Item>, b: nat): nat
    decreases items
  {
    var start, last := b + Count(|items|, SLOTS), Filled(items);
    if |items| < SLOTS && last == 0 then start
    else if last <= |items| / SLOTS * SLOTS then b + |items| / SLOTS
    else ItemEndPos(items[last - 1], start + Spans(items[..last - 1]))
  }

  function ItemEndPos(i: Item, start: nat): nat
    decreases i
  {
    match i.what
    case Sub(DirNode(sub)) => EndPos(sub, start)
    case _ => start + ItemSpan(i)
  }

  /** The tool's own file position is that one. */
  lemma {:induction false} EndPosIs(items: seq<Item>, b: nat)
    ensures PosAfter(DirNode(items), b) == EndPos(items, b)
    decreases items
  {
    var start, last := b + Count(|items|, SLOTS), Filled(items);
    hide Spans, ItemSpan, Count, PosItem, PosItems;
    assert items[..|items|] == items;
    PosOfPrefix(items, b, |items|);
    if last > |items| / SLOTS * SLOTS {
      ItemEndPosIs(items[last - 1], start + Spans(items[..last - 1]));
    }
  }

  lemma {:induction false} ItemEndPosIs(i: Item, start: nat)
    requires ItemSpan(i) > 0
    ensures PosItem(i, start, 0) == ItemEndPos(i, start)
    decreases i
  {
    match i.what
    case Sub(DirNode(sub)) => EndPosIs(sub, start);
    case _ =>
  }

  /** After n items: behind the last one with blocks, unless the scan has finished a full directory block since. */
  lemma {:induction false} PosOfPrefix(items: seq<Item>, b: nat, n: nat)
    requires n <= |items|
    ensures var start, last := b + Count(|items|, SLOTS), Filled(items[..n]);
      PosItems(items[..n], 0, start, b, start) ==
      if n < SLOTS && last == 0 then start
      else if last <= n / SLOTS * SLOTS then b + n / SLOTS
      else PosItem(items[last - 1], start + Spans(items[..last - 1]), 0)
  {
    hide PosItem, PosItems, Spans, ItemSpan, Count;
    if n == 0 {
      PosOfNone(b + Count(|items|, SLOTS), b);
    } else {
      var start := b + Count(|items|, SLOTS);
      PosOfPrefix(items, b, n - 1);
      assert items[..n] == items[..n - 1] + [items[n - 1]];
      PosSnoc(items[..n - 1], items[n - 1], 0, start, b, start);
      PosKept(items[n - 1], start + Spans(items[..n - 1]), PosItems(items[..n - 1], 0, start, b, start));
      BlockBefore(n);
    }
  }

  lemma PosOfNone(start: nat, b: nat)
    ensures PosItems([], 0, start, b, start) == start
  {
  }

  /** Slots n - 1 and n are in the same directory block unless n is the first of its block. */
  lemma BlockBefore(n: nat)
    requires n > 0
    ensures if n % SLOTS == 0 then n / SLOTS * SLOTS == n && n >= SLOTS
            else n / SLOTS == (n - 1) / SLOTS && (n < SLOTS <==> n - 1 < SLOTS)
  {
  }

  lemma PosKept(i: Item, start: nat, pos: nat)
    ensures PosItem(i, start, pos) == if ItemSpan(i) == 0 then pos else PosItem(i, start, 0)
  {
  }

  lemma {:induction false} PosSnoc(items: seq<Item>, i: Item, k: nat, start: nat, b: nat, pos: nat)
    ensures PosItems(items + [i], k, start, b, pos) ==
      if (k + |items| + 1) % SLOTS == 0 then b + (k + |items| + 1) / SLOTS
      else PosItem(i, start + Spans(items), PosItems(items, k, start, b, pos))
    decreases |items|
  {
    if items == [] {
      assert [i][1..] == [];
    } else {
      assert (items + [i])[1..] == items[1..] + [i];
      PosSnoc(items[1..], i, k + 1, start + ItemSpan(items[0]), b,
        if (k + 1) % SLOTS == 0 then b + (k + 1) / SLOTS else PosItem(items[0], start, pos));
    }
  }

  /** All blocks below a directory belong to the items up to the last one that has any. */
  lemma {:induction false} SpansTo(items: seq<Item>, last: nat)
    requires 0 < last <= |items| && forall i :: last <= i < |items| ==> ItemSpan(items[i]) == 0
    ensures Spans(items) == Spans(items[..last - 1]) + ItemSpan(items[last - 1])
    decreases |items|
  {
    var init := items[..|items| - 1];
    assert items == init + [items[|items| - 1]] && items[..|items|] == items;
    SpansSnoc(items, |items| - 1);
    if last < |items| {
      assert init[..last - 1] == items[..last - 1];
      SpansTo(init, last);
    }
  }

  lemma {:induction false} EndPosBound(items: seq<Item>, b: nat)
    ensures b < EndPos(items, b) <= b + Span(DirNode(items))
    decreases items
  {
    var start, last := b + Count(|items|, SLOTS), Filled(items);
    if |items| >= SLOTS { CountAtLeast(|items|, |items|); }
    if last > |items| / SLOTS * SLOTS {
      SpansTo(items, last);
      ItemEndPosBound(items[last - 1], start + Spans(items[..last - 1]));
    }
  }

  lemma {:induction false} ItemEndPosBound(i: Item, start: nat)
    requires ItemSpan(i) > 0
    ensures start < ItemEndPos(i, start) <= start + ItemSpan(i)
    decreases i
  {
    match i.what
    case Sub(DirNode(sub)) => EndPosBound(sub, start);
    case _ =>
  }

  /** The tree alone decides whether the scan ends at the end of the file. */
  lemma {:induction false} EndPosIff(items: seq<Item>, b: nat)
    ensures EndPos(items, b) == b + Span(DirNode(items)) <==> EndsAtEnd(items)
    decreases items
  {
    var start, last := b + Count(|items|, SLOTS), Filled(items);
    CountIs(|items|);
    if last == 0 {
      NothingBelow(items);
    } else {
      SpansTo(items, last);
      if last > |items| / SLOTS * SLOTS {
        ItemEndPosIff(items[last - 1], start + Spans(items[..last - 1]));
      }
    }
  }

  lemma {:induction false} ItemEndPosIff(i: Item, start: nat)
    ensures ItemEndPos(i, start) == start + ItemSpan(i) <==> ItemEndsAtEnd(i)
    decreases i
  {
    match i.what
    case Sub(DirNode(sub)) => EndPosIff(sub, start);
    case _ =>
  }

  lemma {:induction false} NothingBelow(items: seq<Item>)
    requires forall i :: 0 <= i < |items| ==> ItemSpan(items[i]) == 0
    ensures Spans(items) == 0
  {
    if items != [] { NothingBelow(items[1..]); }
  }

  lemma {:induction false} CountIs(n: nat)
    ensures Count(n, SLOTS) == if n == 0 then 1 else (n + SLOTS - 1) / SLOTS
  {
    if n > SLOTS { CountIs(n - SLOTS); }
  }

  lemma {:induction false} CountAtLeast(k: nat, n: nat)
    requires 0 < k <= n
    ensures k / SLOTS <= Count(n, SLOTS)
    decreases n
  {
    if n > SLOTS && k > SLOTS {
      CountAtLeast(k - SLOTS, n - SLOTS);
      assert k / SLOTS == (k - SLOTS) / SLOTS + 1;
    }
  }

  // When the image is right, and what it then shows.

  /** No directory of the tree lists as much as fills a block. */
  predicate SmallDirs(n: Node)
    decreases n
  {
    match n
    case DirNode(items) => |items| < SLOTS && forall i :: 0 <= i < |items| ==> ItemSmall(items[i])
    case _ => true
  }

  predicate ItemSmall(i: Item)
    decreases i
  {
    match i.what
    case Sub(node) => SmallDirs(node)
    case _ => true
  }

  /** Then the scan ends at the end of the file, and the image comes out right. */
  lemma {:induction false} SmallDirsEndAtEnd(items: seq<Item>)
    requires SmallDirs(DirNode(items))
    ensures EndsAtEnd(items)
    decreases items
  {
    if Filled(items) > 0 { SmallItemEnds(items[Filled(items) - 1]); }
  }

  lemma {:induction false} SmallItemEnds(i: Item)
    requires ItemSmall(i)
    ensures ItemEndsAtEnd(i)
    decreases i
  {
    match i.what
    case Sub(DirNode(sub)) => SmallDirsEndAtEnd(sub);
    case _ =>
  }

  /** image is shorter than the whole one, and its blocks from p on are free ones where the whole one has none. */
  predicate Damaged(image: seq<Block>, whole: seq<Block>, p: nat, n: nat, nr: nat) {
    && p < n <= |image| < |whole| == nr && p + (nr - n) <= |image|
    && forall x :: p <= x < n && x < p + (nr - n) ==> image[x] == Free((n + (x - p) + 1) % nr) && !whole[x].Free?
  }

  /** Otherwise the image is damaged: it is too short, and the free chain lies on blocks that the tree still needs. */
  lemma TreeOverwritten(items: seq<Item>, nr: nat)
    requires ROOT_BLOCK + Span(DirNode(items)) < nr && !EndsAtEnd(items)
    ensures var n := ROOT_BLOCK + Span(DirNode(items));
      Damaged(Written(items, nr), Finished(items, nr), EndPos(items, ROOT_BLOCK), n, nr)
  {
    hide Layout, EndPos, EndsAtEnd, FreeBlocks, Over, Span;
    var n, p := ROOT_BLOCK + Span(DirNode(items)), EndPos(items, ROOT_BLOCK);
    LayoutSize(DirNode(items), ROOT_BLOCK, ROOT_INO, ROOT_INO);
    EndPosBound(items, ROOT_BLOCK);
    EndPosIff(items, ROOT_BLOCK);
    NoFreeBlocks(DirNode(items), ROOT_BLOCK, ROOT_INO, ROOT_INO);
    var sup, tree := [Super(RootEntry(ROOT_BLOCK), nr, nr - n, n)],
      Layout(DirNode(items), ROOT_BLOCK, ROOT_INO, ROOT_INO);
    assert Written(items, nr) == Over(sup + tree, p, FreeBlocks(n, nr));
    assert Finished(items, nr) == sup + tree + FreeBlocks(n, nr);
    hide Written, Finished, Damaged;
    FreeOver(sup, tree, p, n, nr);
  }

  lemma FreeOver(sup: seq<Block>, tree: seq<Block>, p: nat, n: nat, nr: nat)
    requires |sup| <= p < n == |sup| + |tree| < nr && forall x :: x in tree ==> !x.Free?
    ensures Damaged(Over(sup + tree, p, FreeBlocks(n, nr)), sup + tree + FreeBlocks(n, nr), p, n, nr)
  {
    var image, whole := Over(sup + tree, p, FreeBlocks(n, nr)), sup + tree + FreeBlocks(n, nr);
    forall x | p <= x < n && x < p + (nr - n)
      ensures image[x] == Free((n + (x - p) + 1) % nr) && !whole[x].Free?
    {
      assert whole[x] == tree[x - |sup|] && image[x] == FreeBlocks(n, nr)[x - p];
    }
  }

  /** No block of a tree looks like a free one. */
  lemma {:induction false} NoFreeBlocks(n: Node, b: nat, dent: nat, parent: nat)
    ensures forall x :: x in Layout(n, b, dent, parent) ==> !x.Free?
    decreases n, 1
  {
    match n
    case DirNode(items) => NoFreeBelow(items, b + Count(|items|, SLOTS), b, 0, dent);
    case _ =>
  }

  lemma {:induction false} NoFreeBelow(items: seq<Item>, start: nat, dir: nat, i: nat, self: nat)
    ensures forall x :: x in LayoutItems(items, start, dir, i, self) ==> !x.Free?
    decreases items, 0
  {
    if items != [] {
      NoFreeInItem(items[0], start, DentAt(dir, i), self);
      NoFreeBelow(items[1..], start + ItemSpan(items[0]), dir, i + 1, self);
    }
  }

  lemma {:induction false} NoFreeInItem(i: Item, start: nat, dent: nat, self: nat)
    ensures forall x :: x in LayoutItem(i, start, dent, self) ==> !x.Free?
    decreases i, 2
  {
    match i.what
    case Sub(node) => NoFreeBlocks(node, start, dent, self);
    case _ =>
  }

  /** When the size check lets a damaged image through: when the tree loses whole pages of blocks to the free chain, or
      the free chain fits into the tree and that happens to fill its pages. */
  lemma DamageUnnoticedIff(items: seq<Item>, nr: nat)
    requires ROOT_BLOCK + Span(DirNode(items)) <= MAX_RD_BLOCKS
    ensures var n, p := ROOT_BLOCK + Span(DirNode(items)), EndPos(items, ROOT_BLOCK);
      var total := Decided(n, nr);
      n <= total && (Written(items, total) != Finished(items, total) && FileSize(items, total) % PAGE_SIZE == 0 <==>
        total > n && !EndsAtEnd(items) && (if n - p <= total - n then (n - p) % BLOCK_PER_PAGE
          else n % BLOCK_PER_PAGE) == 0)
  {
    hide EndPos, EndsAtEnd, Written, Finished, Decided, Span;
    var n, p := ROOT_BLOCK + Span(DirNode(items)), EndPos(items, ROOT_BLOCK);
    DecidedIs(n, nr);
    EndPosBound(items, ROOT_BLOCK);
    EndPosIff(items, ROOT_BLOCK);
    FinishedIff(items, Decided(n, nr));
    WholePages(p, n, Decided(n, nr));
  }

  lemma WholePages(p: nat, n: nat, total: nat)
    requires p <= n <= total && total % BLOCK_PER_PAGE == 0
    ensures var size := if total <= n || p + (total - n) < n then n else p + (total - n);
      size * BLOCK_SIZE % PAGE_SIZE == 0 <==>
      if total <= n then true else if n - p <= total - n then (n - p) % BLOCK_PER_PAGE == 0 else n % BLOCK_PER_PAGE == 0
  {
    var size := if total <= n || p + (total - n) < n then n else p + (total - n);
    assert size * BLOCK_SIZE % PAGE_SIZE == size % BLOCK_PER_PAGE * BLOCK_SIZE;
    assert total > n && n - p <= total - n ==> size == total - (n - p);
  }

  /** The size asked for, rounded up to pages, when that is enough; else room for at least 1 MB, and at least half as
      much again as long as the image leaves that room. */
  lemma DecidedIs(blocks: nat, nr: nat)
    requires blocks <= MAX_RD_BLOCKS
    ensures blocks <= Decided(blocks, nr) && Decided(blocks, nr) % BLOCK_PER_PAGE == 0
    ensures nr != 0 && blocks <= nr ==> nr <= Decided(blocks, nr) < nr + BLOCK_PER_PAGE
    ensures nr < blocks ==> Decided(blocks, nr) == Decided(blocks, 0) <= MAX_RD_BLOCKS
    ensures nr < blocks <= MAX_RD_BLOCKS / 2 ==>
      blocks + 2048 <= Decided(blocks, nr) && blocks + blocks / 2 <= Decided(blocks, nr)
  {
  }

  /** n empty files. */
  function Empties(n: nat): (items: seq<Item>)
    ensures |items| == n
  {
    if n == 0 then [] else [Item(Other(seq(n, _ => 'x')), Sub(FileNode([])))] + Empties(n - 1)
  }

  /** A root directory of nine entries: itself, a file with these bytes, and empty files. */
  function NineEntries(bytes: seq<Byte>): (items: seq<Item>)
    ensures |items| == SLOTS
  {
    [Item(Dot, Self)] + ([Item(DotDot, Parent)] + ([Item(Other("a"), Sub(FileNode(bytes)))] + Empties(6)))
  }

  /** Its only directory block is full, so the scan ends by reading the block number behind it: the file position is
      then block 2, where the file lies, and the first free block replaces the file's first block. */
  lemma NineEntriesSpoil(bytes: seq<Byte>, nr: nat)
    requires bytes != [] && 2 + Count(|bytes|, MAX_USED) < nr
    ensures var items, n := NineEntries(bytes), 2 + Count(|bytes|, MAX_USED);
      && NodeOk(DirNode(items)) && EndPos(items, ROOT_BLOCK) == 2 && ROOT_BLOCK + Span(DirNode(items)) == n
      && FileSize(items, nr) == (if n - 2 <= nr - n then nr - (n - 2) else n) * BLOCK_SIZE
      && |Written(items, nr)| < nr && Written(items, nr)[2] == Free((n + 1) % nr) && !Finished(items, nr)[2].Free?
  {
    var items := NineEntries(bytes);
    NineOk(bytes);
    NineSpans(bytes);
    assert items[2].what.node.bytes == bytes && ItemSpan(items[2]) > 0;
    assert Filled(items) > 2 && !EndsAtEnd(items);
    TreeOverwritten(items, nr);
    hide Written, Finished, EndsAtEnd, Empties, Spans, NodeOk;
  }

  /** With a file of one block the size check notices; with one of eight blocks it does not. */
  lemma NineEntriesAccepted(bytes: seq<Byte>)
    requires |bytes| == 1 || |bytes| == 8 * MAX_USED
    ensures var items := NineEntries(bytes);
      var n := ROOT_BLOCK + Span(DirNode(items));
      && n == (if |bytes| == 1 then 3 else 10)
      && Written(items, Decided(n, 0)) != Finished(items, Decided(n, 0))
      && (FileSize(items, Decided(n, 0)) % PAGE_SIZE == 0 <==> |bytes| == 8 * MAX_USED)
  {
    hide NineEntries, EndPos, Written, Finished, Span, Spans, Count, Decided, FileSize;
    EightBlocks();
    DecidedSmall();
    var nr := if |bytes| == 1 then 2056 else 2064;
    NineEntriesSpoil(bytes, nr);
    FinishedSize(NineEntries(bytes), nr);
  }

  lemma DecidedSmall()
    ensures Decided(3, 0) == 2056 && Decided(10, 0) == 2064
  {
  }

  lemma FinishedSize(items: seq<Item>, nr: nat)
    requires ROOT_BLOCK + Span(DirNode(items)) <= nr
    ensures |Finished(items, nr)| == nr
  {
    LayoutSize(DirNode(items), ROOT_BLOCK, ROOT_INO, ROOT_INO);
    hide Layout;
  }

  lemma EightBlocks()
    ensures Count(1, MAX_USED) == 1 && Count(8 * MAX_USED, MAX_USED) == 8
  {
    assert Count(2 * MAX_USED, MAX_USED) == 2;
    assert Count(4 * MAX_USED, MAX_USED) == 4;
    assert Count(6 * MAX_USED, MAX_USED) == 6;
  }

  lemma NineOk(bytes: seq<Byte>)
    ensures NodeOk(DirNode(NineEntries(bytes)))
  {
    EmptiesOk(6);
    var items := NineEntries(bytes);
    forall i | 0 <= i < SLOTS ensures ItemOk(items[i]) {
      if i >= 3 { assert items[i] == Empties(6)[i - 3]; }
    }
    hide Empties;
  }

  lemma NineSpans(bytes: seq<Byte>)
    ensures Span(DirNode(NineEntries(bytes))) == 1 + if bytes == [] then 0 else Count(|bytes|, MAX_USED)
  {
    EmptiesOk(6);
    hide Empties, Spans;
    var a := [Item(Other("a"), Sub(FileNode(bytes)))] + Empties(6);
    SpansCons(a[0], Empties(6));
    SpansCons(Item(DotDot, Parent), a);
    SpansCons(Item(Dot, Self), [Item(DotDot, Parent)] + a);
  }

  lemma SpansCons(i: Item, items: seq<Item>)
    ensures Spans([i] + items) == ItemSpan(i) + Spans(items)
  {
    assert ([i] + items)[1..] == items;
  }

  lemma {:induction false} EmptiesOk(n: nat)
    ensures Spans(Empties(n)) == 0 && forall i :: 0 <= i < n ==> ItemOk(Empties(n)[i])
  {
    if n > 0 {
      EmptiesOk(n - 1);
      var first := Item(Other(seq(n, _ => 'x')), Sub(FileNode([])));
      assert Empties(n) == [first] + Empties(n - 1);
      SpansCons(first, Empties(n - 1));
    }
  }

  /** A walk along directory names to an entry. */
  function Walk(image: seq<Block>, b: nat, path: seq<Name>): Option<Entry>
    decreases |path|
  {
    if path == [] then None
    else
      var e := Find(image, b, 0, path[0]);
      if |path| == 1 then e
      else if e.Some? && e.value.kind == Directory then Walk(image, e.value.data, path[1..])
      else None
  }

  /** What the path names in the tree. */
  function Resolve(items: seq<Item>, path: seq<Name>): Option<Node>
    decreases |path|
  {
    if path == [] then None
    else
      var k := IndexOf(items, path[0]);
      if k == |items| || !items[k].what.Sub? then None
      else if |path| == 1 then Some(items[k].what.node)
      else if items[k].what.node.DirNode? then Resolve(items[k].what.node.items, path[1..])
      else None
  }

  function IndexOf(items: seq<Item>, name: Name): (k: nat)
    ensures k <= |items| && (k < |items| ==> items[k].name == name)
  {
    if items == [] || items[0].name == name then 0 else 1 + IndexOf(items[1..], name)
  }

  /** Walking to a directory arrives at one, walking to a file or symlink and printing it gives its bytes. */
  lemma {:induction false} WalkShows(image: seq<Block>, items: seq<Item>, b: nat, self: nat, parent: nat,
                                     path: seq<Name>)
    requires Shows(image, items, b, self, parent) && Resolve(items, path).Some?
    ensures var n, e := Resolve(items, path).value, Walk(image, b, path);
      && e.Some? && (n.DirNode? ==> e.value.kind == Directory)
      && (!n.DirNode? ==>
            && Gather(image, e.value.data, e.value.size) == (if n.FileNode? then n.bytes else n.target)
            && e.value.kind == (if n.FileNode? then Reg else Lnk)
            && e.value.size == |if n.FileNode? then n.bytes else n.target|)
    decreases |path|
  {
    var k := IndexOf(items, path[0]);
    assert ShowsItem(image, items[k], Find(image, b, 0, path[0]), DentAt(b, k), self, parent);
    hide Find, EntryAt, Gather, IndexOf;
    if |path| > 1 {
      WalkShows(image, items[k].what.node.items, Find(image, b, 0, path[0]).value.data, DentAt(b, k), self, path[1..]);
    }
  }

  /** In a finished image every path of the tree leads to the bytes that were archived. */
  lemma ImageRoundTrip(items: seq<Item>, nr: nat, path: seq<Name>)
    requires ROOT_BLOCK + Span(DirNode(items)) <= nr && NodeOk(DirNode(items)) && NamesOk(DirNode(items))
    requires Resolve(items, path).Some? && !Resolve(items, path).value.DirNode?
    ensures var image, n := Finished(items, nr), Resolve(items, path).value;
      var e := Walk(image, ROOT_BLOCK, path);
      e.Some? && Gather(image, e.value.data, e.value.size) == if n.FileNode? then n.bytes else n.target
  {
    hide Layout, Shows, Walk, Resolve, Gather, FreeBlocks;
    var n := ROOT_BLOCK + Span(DirNode(items));
    var base := [Super(RootEntry(ROOT_BLOCK), nr, nr - n, if nr == n then 0 else n)];
    LayoutShows(items, ROOT_BLOCK, ROOT_INO, ROOT_INO, base, FreeBlocks(n, nr));
    WalkShows(Finished(items, nr), items, ROOT_BLOCK, ROOT_INO, ROOT_INO, path);
  }

  /** A name of a directory leads to its item, and a longer path through a subdirectory on into that. */
  lemma ResolvesItem(items: seq<Item>, k: nat, path: seq<Name>)
    requires NamesOk(DirNode(items)) && k < |items| && items[k].what.Sub?
    ensures Resolve(items, [items[k].name]) == Some(items[k].what.node)
    ensures path != [] && items[k].what.node.DirNode? ==>
      Resolve(items, [items[k].name] + path) == Resolve(items[k].what.node.items, path)
  {
    IndexIs(items, k);
    assert ([items[k].name] + path)[1..] == path;
    hide IndexOf;
  }

  lemma {:induction false} IndexIs(items: seq<Item>, k: nat)
    requires k < |items| && forall i :: 0 <= i < k ==> items[i].name != items[k].name
    ensures IndexOf(items, items[k].name) == k
  {
    if k > 0 { IndexIs(items[1..], k - 1); }
  }

  lemma {:induction false} IndexFirst(items: seq<Item>, name: Name)
    ensures forall i :: 0 <= i < IndexOf(items, name) ==> items[i].name != name
  {
    if items != [] && items[0].name != name { IndexFirst(items[1..], name); }
  }

  lemma {:induction false} KeptCons(listed: seq<Item>)
    requires listed != []
    ensures Kept(listed) == (if listed[0].what.Special? then [] else [KeptItem(listed[0])]) + Kept(listed[1..])
    decreases |listed|
  {
    var n := |listed| - 1;
    hide KeptItem;
    if n == 0 {
      assert listed[..0] == [] && listed[1..] == [];
    } else {
      KeptCons(listed[..n]);
      assert listed[..n][1..] == listed[1..][..n - 1];
    }
  }

  /** Where a listed item went. */
  lemma {:induction false} KeptIndex(listed: seq<Item>, name: Name)
    requires IndexOf(listed, name) < |listed| && !listed[IndexOf(listed, name)].what.Special?
    ensures IndexOf(Kept(listed), name) < |Kept(listed)|
    ensures Kept(listed)[IndexOf(Kept(listed), name)] == KeptItem(listed[IndexOf(listed, name)])
    decreases |listed|
  {
    KeptCons(listed);
    hide Kept;
    if listed[0].name != name {
      KeptIndex(listed[1..], name);
      if listed[0].what.Special? {
        assert Kept(listed) == Kept(listed[1..]);
      } else {
        assert Kept(listed)[1..] == Kept(listed[1..]);
      }
    }
  }

  /** Every file and symlink that was listed is in the tree that is archived, unchanged, under the same path; so is
      every directory, with what is kept of it. */
  lemma {:induction false} KeptResolves(listed: seq<Item>, path: seq<Name>)
    requires Resolve(listed, path).Some?
    ensures !Resolve(listed, path).value.DirNode? ==> Resolve(Kept(listed), path) == Resolve(listed, path)
    ensures Resolve(listed, path).value.DirNode? ==>
      Resolve(Kept(listed), path) == Some(DirNode(Kept(Resolve(listed, path).value.items)))
    decreases |path|
  {
    var k := IndexOf(listed, path[0]);
    KeptIndex(listed, path[0]);
    hide Kept, IndexOf;
    if |path| > 1 { KeptResolves(listed[k].what.node.items, path[1..]); }
  }

  /** And every path of that tree was listed. */
  lemma {:induction false} KeptOnly(listed: seq<Item>, path: seq<Name>)
    requires NamesOk(DirNode(listed)) && Resolve(listed, path) == None
    ensures Resolve(Kept(listed), path) == None
    decreases |path|
  {
    if path != [] {
      var kept := Kept(listed);
      var j := IndexOf(kept, path[0]);
      if j < |kept| {
        FilesListed(listed);
        var file := Files(listed)[j];
        var k :| 0 <= k < |listed| && listed[k] == file;
        assert kept[j] == KeptItem(file);
        IndexIs(listed, k);
        hide Kept, IndexOf, Files;
        assert ItemNamesOk(file);
        if |path| > 1 && file.what.Sub? && file.what.node.DirNode? {
          KeptOnly(file.what.node.items, path[1..]);
        }
      }
    }
  }

  lemma {:induction false} KeptNames(listed: seq<Item>)
    requires NamesOk(DirNode(listed))
    ensures NamesOk(DirNode(Kept(listed)))
    decreases listed, 1
  {
    hide Kept, KeptItem, ItemNamesOk;
    FilesListed(listed);
    KeptDistinct(listed);
    var kept := Kept(listed);
    forall i | 0 <= i < |kept| ensures ItemNamesOk(kept[i]) {
      var k :| 0 <= k < |listed| && listed[k] == Files(listed)[i];
      KeptItemNames(listed[k]);
    }
  }

  lemma {:induction false} KeptItemNames(i: Item)
    requires ItemNamesOk(i)
    ensures ItemNamesOk(KeptItem(i))
    decreases i, 2
  {
    match i.what
    case Sub(DirNode(sub)) => KeptNames(sub);
    case _ =>
  }

  lemma {:induction false} KeptDistinct(listed: seq<Item>)
    requires forall i, j :: 0 <= i < j < |listed| ==> listed[i].name != listed[j].name
    ensures forall i, j :: 0 <= i < j < |Kept(listed)| ==> Kept(listed)[i].name != Kept(listed)[j].name
    decreases |listed|
  {
    if listed != [] {
      var rest := listed[1..];
      KeptCons(listed);
      KeptDistinct(rest);
      FilesListed(rest);
      hide Kept, Files;
      forall j | 0 <= j < |Kept(rest)| ensures Kept(rest)[j].name != listed[0].name {
        var k :| 0 <= k < |rest| && rest[k] == Files(rest)[j];
        assert rest[k] == listed[k + 1];
      }
    }
  }

  /** A path of ordinary names that leads nowhere in the tree leads nowhere in the image. */
  lemma {:induction false} WalkNowhere(image: seq<Block>, items: seq<Item>, b: nat, self: nat, parent: nat,
                                       path: seq<Name>)
    requires Shows(image, items, b, self, parent) && NodeOk(DirNode(items)) && Resolve(items, path) == None
    requires forall i :: 0 <= i < |path| ==> path[i].Other?
    ensures Walk(image, b, path) == None
    decreases |path|
  {
    if path != [] {
      var k := IndexOf(items, path[0]);
      IndexFirst(items, path[0]);
      hide Find, EntryAt, Gather, IndexOf;
      if k == |items| {
        assert Find(image, b, 0, path[0]) == None;
      } else {
        assert ItemOk(items[k]);
        assert ShowsItem(image, items[k], Find(image, b, 0, path[0]), DentAt(b, k), self, parent);
        if items[k].what.node.DirNode? {
          WalkNowhere(image, items[k].what.node.items, Find(image, b, 0, path[0]).value.data, DentAt(b, k), self,
            path[1..]);
        }
      }
    }
  }

  /** From the directory that was listed to what is read: in a finished image the path of every file and symlink leads,
      from the root that the super block names, to an entry of its kind and size and to its bytes, that of every
      directory to a directory, and no other path of ordinary names leads anywhere. */
  lemma ArchivedReadsBack(listed: seq<Item>, nr: nat, path: seq<Name>)
    requires NodeOk(DirNode(Kept(listed))) && NamesOk(DirNode(listed))
    requires ROOT_BLOCK + Span(DirNode(Kept(listed))) <= nr
    ensures var image := Finished(Kept(listed), nr);
      && |image| > 0 && image[0].Super?
      && (Resolve(listed, path).Some? && !Resolve(listed, path).value.DirNode? ==>
            var n, e := Resolve(listed, path).value, Walk(image, image[0].root.data, path);
            var bytes := if n.FileNode? then n.bytes else n.target;
            && e.Some? && e.value.kind == (if n.FileNode? then Reg else Lnk) && e.value.size == |bytes|
            && Gather(image, e.value.data, e.value.size) == bytes)
      && (Resolve(listed, path).Some? && Resolve(listed, path).value.DirNode? ==>
            var e := Walk(image, image[0].root.data, path);
            e.Some? && e.value.kind == Directory)
      && (Resolve(listed, path) == None && (forall i :: 0 <= i < |path| ==> path[i].Other?) ==>
            Walk(image, image[0].root.data, path) == None)
  {
    hide Layout, Shows, Walk, Resolve, Gather, FreeBlocks, Kept;
    KeptNames(listed);
    var items := Kept(listed);
    var n := ROOT_BLOCK + Span(DirNode(items));
    var base := [Super(RootEntry(ROOT_BLOCK), nr, nr - n, if nr == n then 0 else n)];
    var image := Finished(items, nr);
    assert image[0] == base[0];
    LayoutShows(items, ROOT_BLOCK, ROOT_INO, ROOT_INO, base, FreeBlocks(n, nr));
    if Resolve(listed, path).Some? {
      KeptResolves(listed, path);
      WalkShows(image, items, ROOT_BLOCK, ROOT_INO, ROOT_INO, path);
    }
    if Resolve(listed, path) == None && forall i :: 0 <= i < |path| ==> path[i].Other? {
      KeptOnly(listed, path);
      WalkNowhere(image, items, ROOT_BLOCK, ROOT_INO, ROOT_INO, path);
    }
  }

  /** In a finished image block 0 is the super block, the chains of the tree tile the blocks behind it, and the free
      chain is the rest: it starts where the super block says, has as many blocks as it says, and ends in 0. */
  lemma ImagePartition(items: seq<Item>, nr: nat)
    requires ROOT_BLOCK + Span(DirNode(items)) <= nr
    ensures var image, n, es := Finished(items, nr), ROOT_BLOCK + Span(DirNode(items)),
      ExtentsOf(DirNode(items), ROOT_BLOCK);
      && |image| == nr && image[0].Super? && image[0].nrBlocks == nr && image[0].nrFree == nr - n
      && image[0].free == (if nr == n then 0 else n) && image[0].root.kind == Directory && image[0].root.data == 1
      && Tiles(es, ROOT_BLOCK, n) && (forall e :: e in es ==> ChainIn(image, e))
      && (n < nr ==> ChainIn(image, Extent(n, nr - n)))
  {
    var n := ROOT_BLOCK + Span(DirNode(items));
    var base := [Super(RootEntry(ROOT_BLOCK), nr, nr - n, if nr == n then 0 else n)];
    LayoutSize(DirNode(items), ROOT_BLOCK, ROOT_INO, ROOT_INO);
    ExtentsTile(DirNode(items), ROOT_BLOCK);
    LayoutChains(DirNode(items), ROOT_BLOCK, ROOT_INO, ROOT_INO, base, FreeBlocks(n, nr));
    FreeChain(base + Layout(DirNode(items), ROOT_BLOCK, ROOT_INO, ROOT_INO), n, nr);
    hide Layout, ChainIn, ExtentsOf, Tiles, FreeBlocks;
  }

  lemma FreeChain(base: seq<Block>, n: nat, nr: nat)
    requires |base| == n <= nr
    ensures n < nr ==> ChainIn(base + FreeBlocks(n, nr), Extent(n, nr - n))
  {
    var image := base + FreeBlocks(n, nr);
    forall x | n <= x < nr ensures NextOf(image[x]) == if x == nr - 1 then 0 else x + 1 {
      assert image[x] == FreeBlocks(n, nr)[x - n] == Free((x + 1) % nr);
      LastWraps(x, nr);
    }
  }

  lemma LastWraps(x: nat, nr: nat)
    requires x < nr
    ensures (x + 1) % nr == if x == nr - 1 then 0 else x + 1
  {
  }
}
