/** src/mm/filemap.c: the file page cache, one call at a time. */
module FilePages {
  import opened Lists
  import Words

  const PAGE_SIZE: nat := 4096
  const FILEMAP_MAX_PAGES: nat := 8192
  const FILEMAP_HASH_SIZE: nat := 1024
  const MAX_SIZE: nat := 0x8000_0000  // i_size is a signed 32-bit off_t
  const EIO: int := 5
  const EAGAIN: int := 11
  const EINVAL: int := 22
  const ENOMEM: int := 12
  const ENOSPC: int := 28

  type Byte = x | 0 <= x < 256
  type Page = seq<Byte>

  /** A regular file; bytes that were never written are zero. */
  datatype File = File(size: nat, data: map<nat, Byte>)

  ghost predicate FileOk(f: File) { f.size < MAX_SIZE && forall i :: i in f.data ==> i < f.size }

  function ByteOf(f: File, i: nat): Byte { if i < f.size && i in f.data then f.data[i] else 0 }

  /** Page `index` of a file, zero padded. */
  function PageOf(f: File, index: nat): (p: Page)
    ensures |p| == PAGE_SIZE
  {
    seq<Byte>(PAGE_SIZE, j requires 0 <= j < PAGE_SIZE => ByteOf(f, index * PAGE_SIZE + j))
  }

  /** An inode and a page index. */
  datatype Key = Key(inode: nat, index: nat)

  /** filemap_page between calls; refs are the references beside the cache's own. */
  datatype Entry = Uptodate(page: Page, refs: nat) | Error(error: int)

  type Errno = e: int | e < 0 witness -1

  /** What read_page does: it reads all bytes asked for, or fewer, or fails. */
  datatype Reading = Whole | Short | Failed(error: Errno)

  function ReadError(r: Reading): int { match r case Whole => 0 case Short => -EIO case Failed(e) => e }

  /** What happens beyond the cache while one page is read: whether there is memory for the entry and for the page, what
      read_page does, and the same for the page and the reading around the cache. */
  datatype Luck = Luck(entry: bool, page: bool, read: Reading, spare: bool, again: Reading)

  predicate Good(l: Luck) { l.entry && l.page && l.read.Whole? && l.spare && l.again.Whole? }

  /** What filling the page gives. */
  function FillError(l: Luck, k: Key, files: map<nat, File>): int
  {
    if !l.page then -ENOMEM else if k.index * PAGE_SIZE >= FileOf(files, k.inode).size then 0 else ReadError(l.read)
  }

  /** The cache is full of pages that someone refers to. */
  ghost predicate Full(entries: map<Key, Entry>, pageCount: nat) {
    pageCount >= FILEMAP_MAX_PAGES && forall x :: x in entries ==> !Evictable(entries[x])
  }

  /** Something may go wrong with a page: outside the cache, or because an earlier loader left its error there. */
  predicate Trouble(entries: map<Key, Entry>, k: Key, l: Luck) { !Good(l) || (k in entries && entries[k].Error?) }

  function RefsOf(e: Entry): nat { if e.Uptodate? then e.refs else 0 }

  /** filemap_hash_index */
  function HashIndex(k: Key): nat { Words.Xor(k.inode / 16, k.index) % FILEMAP_HASH_SIZE }

  /** The LRU list and the hash hold the same entries, each once and in its bucket. */
  ghost predicate ListsOk(entries: map<Key, Entry>, lru: seq<Key>, hash: seq<seq<Key>>) {
    && NoDup(lru) && (forall k :: k in lru <==> k in entries) && |lru| <= FILEMAP_MAX_PAGES
    && |hash| == FILEMAP_HASH_SIZE && (forall h :: 0 <= h < |hash| ==> NoDup(hash[h]))
    && (forall h, k :: 0 <= h < |hash| ==> (k in hash[h] <==> k in entries && HashIndex(k) == h))
  }

  function FileOf(files: map<nat, File>, inode: nat): File { if inode in files then files[inode] else File(0, map[]) }

  /** A page in the cache holds the file's bytes. */
  ghost predicate EntryOk(e: Entry, k: Key, files: map<nat, File>) {
    if e.Uptodate? then e.page == PageOf(FileOf(files, k.inode), k.index) else e.error < 0
  }

  ghost predicate PagesOk(entries: map<Key, Entry>, files: map<nat, File>) {
    forall k :: k in entries ==> EntryOk(entries[k], k, files)
  }

  class FileMap {
    var entries: map<Key, Entry>
    var lru: seq<Key>             // filemap_pages, the latest used first
    var hash: seq<seq<Key>>
    var pageCount: nat
    var files: map<nat, File>

    ghost predicate Valid()
      reads this
    {
      && ListsOk(entries, lru, hash) && pageCount == |lru| && PagesOk(entries, files)
      && forall i :: i in files ==> FileOk(files[i])
    }

    constructor (initial: map<nat, File>)
      requires forall i :: i in initial ==> FileOk(initial[i])
      ensures Valid() && files == initial && entries == map[]
    {
      entries, lru, pageCount, files := map[], [], 0, initial;
      hash := seq(FILEMAP_HASH_SIZE, _ => []);
    }

    /** filemap_lookup: a walk of the bucket. */
    method Lookup(k: Key) returns (found: bool)
      requires ListsOk(entries, lru, hash)
      ensures found <==> k in entries
    {
      var bucket := hash[HashIndex(k)];
      for i := 0 to |bucket|
        invariant forall j :: 0 <= j < i ==> bucket[j] != k
      {
        if bucket[i] == k { return true; }
      }
      found := false;
    }

    /** filemap_remove_locked */
    method RemoveEntry(k: Key)
      requires ListsOk(entries, lru, hash) && pageCount == |lru| && k in entries
      modifies this`entries, this`lru, this`hash, this`pageCount
      ensures ListsOk(entries, lru, hash) && pageCount == |lru|
      ensures entries == old(entries) - {k} && lru == Remove(old(lru), k)
    {
      ListsRemoved(entries, lru, hash, k);
      var h := HashIndex(k);
      lru := Remove(lru, k);
      hash := hash[h := Remove(hash[h], k)];
      pageCount := pageCount - 1;
      entries := entries - {k};
    }

    /** filemap_touch_locked */
    method Touch(k: Key)
      requires ListsOk(entries, lru, hash) && pageCount == |lru| && k in entries
      modifies this`lru
      ensures ListsOk(entries, lru, hash) && pageCount == |lru| && lru == [k] + Remove(old(lru), k)
    {
      Removed(lru, k);
      Pushed(Remove(lru, k), k);
      lru := Remove(lru, k);
      lru := [k] + lru;
    }

    method AddEntry(k: Key, e: Entry)
      requires ListsOk(entries, lru, hash) && pageCount == |lru| && k !in entries && pageCount < FILEMAP_MAX_PAGES
      modifies this`entries, this`lru, this`hash, this`pageCount
      ensures ListsOk(entries, lru, hash) && pageCount == |lru|
      ensures entries == old(entries)[k := e] && lru == [k] + old(lru)
    {
      ListsAdded(entries, lru, hash, k, e);
      var h := HashIndex(k);
      lru := [k] + lru;
      hash := hash[h := [k] + hash[h]];
      pageCount := pageCount + 1;
      entries := entries[k := e];
    }

    /** filemap_evict_one_locked: the least recently used page that no one else refers to. */
    method EvictOne() returns (evicted: bool)
      requires Valid()
      modifies this`entries, this`lru, this`hash, this`pageCount
      ensures Valid() && |lru| == |old(lru)| - (if evicted then 1 else 0)
      ensures evicted <==> exists k :: k in old(entries) && old(entries)[k].Uptodate? && old(entries)[k].refs == 0
      ensures !evicted ==> entries == old(entries) && lru == old(lru)
      ensures evicted ==> exists k :: k in old(entries) && Evictable(old(entries)[k]) && entries == old(entries) - {k}
    {
      hide NoDup, HashIndex;
      var i := |lru|;
      while i > 0
        invariant 0 <= i <= |lru|
        invariant forall j :: i <= j < |lru| ==> !Evictable(entries[lru[j]])
      {
        i := i - 1;
        var k := lru[i];
        assert k in lru;
        if entries[k].Uptodate? && entries[k].refs == 0 {
          ListsRemoved(entries, lru, hash, k);
          RemoveEntry(k);
          return true;
        }
      }
      evicted := false;
    }

    /** read_page under i_sem: the file's bytes into a zeroed page. */
    method ReadPage(k: Key, read: Reading) returns (page: Page, error: int)
      ensures error == if k.index * PAGE_SIZE >= FileOf(files, k.inode).size then 0 else ReadError(read)
      ensures ReadError(read) == match read case Whole => 0 case Short => -5 case Failed(e) => e
      ensures error == 0 ==> page == PageOf(FileOf(files, k.inode), k.index)
    {
      page := seq<Byte>(PAGE_SIZE, _ => 0);
      var f, offset := FileOf(files, k.inode), k.index * PAGE_SIZE;
      if offset < f.size {
        var valid := if f.size - offset < PAGE_SIZE then f.size - offset else PAGE_SIZE;
        match read
        case Short => return page, -EIO;
        case Failed(e) => return page, e;
        case Whole =>
        page := seq<Byte>(valid, j requires 0 <= j < valid => ByteOf(f, offset + j)) + page[valid..];
      }
      error := 0;
      PageBytes(f, k.index, page);
    }

    /** filemap_fill_page for an entry that was just published: the page, or the error stays in the entry. */
    method FillPage(k: Key, luck: Luck) returns (page: Page, error: int)
      requires Valid() && k !in entries && pageCount < FILEMAP_MAX_PAGES
      modifies this`entries, this`lru, this`hash, this`pageCount
      ensures Valid() && error == FillError(luck, k, files)
      ensures !luck.page ==> error == -12
      ensures luck.page && luck.read.Short? ==> error == 0 || error == -5
      ensures luck.page && luck.read.Failed? ==> error == 0 || error == luck.read.error
      ensures luck.page && (luck.read.Whole? || k.inode !in files || k.index * 4096 >= files[k.inode].size) ==>
        error == 0
      ensures luck.page && !luck.read.Whole? && k.inode in files && k.index * 4096 < files[k.inode].size ==> error != 0
      ensures error == 0 ==> page == PageOf(FileOf(files, k.inode), k.index)
      ensures entries == old(entries)[k := if error == 0 then Uptodate(page, 1) else Error(error)]
    {
      hide NoDup, HashIndex;
      page := [];
      if luck.page {
        page, error := ReadPage(k, luck.read);
      } else {
        error := -ENOMEM;
      }
      AddEntry(k, if error == 0 then Uptodate(page, 1) else Error(error));
    }

    /** filemap_get_page: the page with a reference for the caller. An error of the loader stays behind for the next one
        who asks, save -EAGAIN, for which the caller itself asks again. */
    method GetPage(k: Key, luck: Luck) returns (page: Page, error: int)
      requires Valid()
      modifies this`entries, this`lru, this`hash, this`pageCount
      ensures Valid()
      ensures error == 0 ==> k in entries && entries[k].Uptodate? && page == PageOf(FileOf(files, k.inode), k.index)
      ensures error == 0 ==> entries[k].refs == 1 + (if k in old(entries) then RefsOf(old(entries)[k]) else 0)
      ensures forall x :: x in entries && x != k ==> x in old(entries) && entries[x] == old(entries)[x]
      ensures k in old(entries) && old(entries)[k].Uptodate? ==> error == 0
      ensures k in old(entries) && old(entries)[k].Error? ==> error == old(entries)[k].error && k !in entries
      ensures k !in old(entries) ==>
        error == (if !luck.entry then -ENOMEM else if Full(old(entries), old(pageCount)) then -ENOSPC
          else FillError(luck, k, files))
      ensures k !in old(entries) && luck.entry && error == -28 && luck.page && luck.read.Whole? ==>
        old(pageCount) >= 8192 && forall x :: x in old(entries) && old(entries)[x].Uptodate? ==>
          old(entries)[x].refs > 0
      ensures k !in old(entries) && (!luck.entry || Full(old(entries), old(pageCount))) ==> entries == old(entries)
      ensures k !in old(entries) && luck.entry && !Full(old(entries), old(pageCount)) ==>
        if error == -EAGAIN then k !in entries else k in entries && (error != 0 ==> entries[k] == Error(error))
    {
      hide NoDup, HashIndex;
      page := [];
      var found := Lookup(k);
      if found {
        match entries[k]
        case Uptodate(p, refs) =>
          ListsSame(entries, lru, hash, k, Uptodate(p, refs + 1));
          entries := entries[k := Uptodate(p, refs + 1)];
          Touch(k);
          return p, 0;
        case Error(e) =>
          RemoveEntry(k);
          return page, e;
      }
      if !luck.entry { return page, -ENOMEM; }
      if pageCount >= FILEMAP_MAX_PAGES {
        var evicted := EvictOne();
        if !evicted { return page, -ENOSPC; }
      }
      page, error := FillPage(k, luck);
      if error == -EAGAIN { RemoveEntry(k); }
    }

    /** put_page by a user of a cached page. */
    method PutPage(k: Key)
      requires Valid()
      modifies this`entries
      ensures Valid() && forall x :: x in entries <==> x in old(entries)
      ensures forall x :: x in entries ==>
        entries[x] == if x == k && old(entries)[x].Uptodate? && old(entries)[x].refs > 0
          then old(entries)[x].(refs := old(entries)[x].refs - 1) else old(entries)[x]
    {
      hide NoDup, HashIndex;
      if k in entries && entries[k].Uptodate? && entries[k].refs > 0 {
        var e := entries[k].(refs := entries[k].refs - 1);
        ListsSame(entries, lru, hash, k, e);
        entries := entries[k := e];
      }
    }

    /** filemap_invalidate_pages: pages behind `from` go, the one around it is zeroed from there on. */
    method InvalidatePages(inode: nat, from: nat)
      requires Valid() && from < MAX_SIZE
      modifies this`entries, this`lru, this`hash, this`pageCount
      ensures ListsOk(entries, lru, hash) && pageCount == |lru|
      ensures forall k :: k in entries <==> k in old(entries) && (k.inode == inode ==> k.index * 4096 < from)
      ensures forall k :: k in entries ==> entries[k] == Cut(old(entries)[k], k, inode, from)
    {
      hide NoDup, HashIndex;
      ghost var was := entries;
      var todo := lru;
      for i := 0 to |todo|
        invariant ListsOk(entries, lru, hash) && pageCount == |lru|
        invariant forall k :: k in entries <==> k in was && (k in todo[..i] ==> Survives(k, inode, from))
        invariant forall k :: k in entries ==> entries[k] == if k in todo[..i] then Cut(was[k], k, inode, from)
          else was[k]
      {
        var k := todo[i];
        assert k in todo;
        NoDupAt(todo, i);
        assert todo[..i + 1] == todo[..i] + [k];
        if k.inode != inode { continue; }
        var page_start := k.index * PAGE_SIZE;
        var page_end := page_start + PAGE_SIZE;
        if page_start >= from {
          RemoveEntry(k);
        } else if page_end > from && entries[k].Uptodate? {
          var e := Cut(entries[k], k, inode, from);
          ListsSame(entries, lru, hash, k, e);
          entries := entries[k := e];
        }
      }
      assert todo[..|todo|] == todo;
    }

    /** filemap_invalidate_inode */
    method InvalidateInode(inode: nat)
      requires Valid()
      modifies this`entries, this`lru, this`hash, this`pageCount
      ensures Valid() && entries == map k | k in old(entries) && k.inode != inode :: old(entries)[k]
    {
      hide NoDup, HashIndex;
      ghost var was := entries;
      var todo := lru;
      for i := 0 to |todo|
        invariant ListsOk(entries, lru, hash) && pageCount == |lru|
        invariant forall k :: k in entries <==> k in was && (k in todo[..i] ==> k.inode != inode)
        invariant forall k :: k in entries ==> entries[k] == was[k]
      {
        var k := todo[i];
        assert k in todo;
        NoDupAt(todo, i);
        assert todo[..i + 1] == todo[..i] + [k];
        if k.inode == inode { RemoveEntry(k); }
      }
      assert todo[..|todo|] == todo;
    }

    /** A file system that shortens a file invalidates its pages first. */
    method Truncate(inode: nat, size: nat)
      requires Valid() && size <= FileOf(files, inode).size && inode in files
      modifies this
      ensures Valid() && files == old(files)[inode := Truncated(FileOf(old(files), inode), size)]
      ensures files[inode].size == size && forall i: nat :: i < size ==>
        (i in files[inode].data <==> i in old(files)[inode].data)
        && (i in files[inode].data ==> files[inode].data[i] == old(files)[inode].data[i])
    {
      hide NoDup, HashIndex, ListsOk;
      ghost var was := entries;
      InvalidatePages(inode, size);
      forall k | k in entries ensures EntryOk(entries[k], k, files[inode := Truncated(files[inode], size)]) {
        CutOk(was[k], k, files, inode, size);
      }
      files := files[inode := Truncated(files[inode], size)];
    }

    /** filemap_update_cached_range: cached pages get the bytes that were written to the file. */
    method UpdateCachedRange(inode: nat, offset: nat, bytes: seq<Byte>)
      requires Valid() && offset + |bytes| < MAX_SIZE
      modifies this`entries
      ensures ListsOk(entries, lru, hash)
      ensures PagesOk(entries, files[inode := Written(FileOf(files, inode), offset, bytes)])
      ensures forall k :: k in entries <==> k in old(entries)
    {
      hide NoDup, HashIndex, ListsOk;
      var at, rest := offset, bytes;
      ghost var f := FileOf(files, inode);
      ghost var done := 0;
      WrittenNothing(entries, files, inode, offset);
      while |rest| > 0
        invariant done + |rest| == |bytes| && rest == bytes[done..] && at == offset + done
        invariant ListsOk(entries, lru, hash) && forall k :: k in entries <==> k in old(entries)
        invariant PagesOk(entries, files[inode := Written(f, offset, bytes[..done])])
        decreases |rest|
      {
        var k := Key(inode, at / PAGE_SIZE);
        var chunk := PAGE_SIZE - at % PAGE_SIZE;
        if chunk > |rest| { chunk := |rest|; }
        ghost var before := entries;
        PatchCached(k, at % PAGE_SIZE, rest[..chunk]);
        PatchedOk(before, entries, files, inode, f, offset, bytes, done, chunk);
        done := done + chunk;
        at := at + chunk;
        rest := rest[chunk..];
      }
      assert bytes[..done] == bytes;
    }

    /** One chunk of filemap_update_cached_range. */
    method PatchCached(k: Key, at: nat, bytes: seq<Byte>)
      requires ListsOk(entries, lru, hash)
      modifies this`entries
      ensures ListsOk(entries, lru, hash)
      ensures entries == if k in old(entries) && old(entries)[k].Uptodate?
        then old(entries)[k := Patched(old(entries)[k], at, bytes)] else old(entries)
    {
      hide NoDup, HashIndex, Patched, ListsOk;
      var found := Lookup(k);
      if found && entries[k].Uptodate? {
        ListsSame(entries, lru, hash, k, Patched(entries[k], at, bytes));
        entries := entries[k := Patched(entries[k], at, bytes)];
      }
    }

    /** A write to the file: the file system stores the bytes and updates the cache. */
    method WriteFile(inode: nat, offset: nat, bytes: seq<Byte>)
      requires Valid() && offset + |bytes| < MAX_SIZE
      modifies this
      ensures Valid() && files == old(files)[inode := Written(FileOf(old(files), inode), offset, bytes)]
      ensures var was := if inode in old(files) then old(files)[inode].size else 0;
        files[inode].size == if bytes != [] && offset + |bytes| > was then offset + |bytes| else was
      ensures forall i: nat :: offset <= i < offset + |bytes| ==>
        i in files[inode].data && files[inode].data[i] == bytes[i - offset]
      ensures forall i: nat :: i < offset || offset + |bytes| <= i ==>
        if inode in old(files) && i in old(files)[inode].data
        then i in files[inode].data && files[inode].data[i] == old(files)[inode].data[i]
        else i !in files[inode].data
    {
      hide NoDup, HashIndex, ListsOk, PagesOk;
      UpdateCachedRange(inode, offset, bytes);
      files := files[inode := Written(FileOf(files, inode), offset, bytes)];
    }

    /** filemap_read_uncached */
    method ReadUncached(k: Key, luck: Luck) returns (page: Page, error: int)
      ensures error == 0 ==> page == PageOf(FileOf(files, k.inode), k.index)
      ensures error <= 0 && (Good(luck) ==> error == 0)
    {
      if !luck.spare { return [], -ENOMEM; }
      page, error := ReadPage(k, luck.again);
    }

    /** One page of generic_file_read. */
    method ReadChunk(inode: nat, pos: nat, chunk: nat, luck: Luck) returns (bytes: seq<Byte>, error: int)
      requires Valid() && pos % PAGE_SIZE + chunk <= PAGE_SIZE
      modifies this`entries, this`lru, this`hash, this`pageCount
      ensures Valid() && error <= 0
      ensures error == 0 ==>
        bytes == PageOf(FileOf(files, inode), pos / PAGE_SIZE)[pos % PAGE_SIZE..pos % PAGE_SIZE + chunk]
      ensures error != 0 ==> Trouble(old(entries), Key(inode, pos / PAGE_SIZE), luck)
      ensures forall x :: x in entries && entries[x].Error? && x != Key(inode, pos / PAGE_SIZE) ==>
        x in old(entries) && old(entries)[x].Error?
    {
      hide NoDup, HashIndex, ListsOk;
      var k := Key(inode, pos / PAGE_SIZE);
      assert k in entries ==> EntryOk(entries[k], k, files);
      hide PagesOk;
      var page;
      page, error := GetPage(k, luck);
      var cached := error == 0;
      if error == -ENOSPC { page, error := ReadUncached(k, luck); }
      if error != 0 { return [], error; }
      var at := pos % PAGE_SIZE;
      bytes := page[at..at + chunk];
      if cached { PutPage(k); }
    }

    /** generic_file_read: the bytes from pos on, page by page, through the cache or around it when it is full. What
        happens beyond the cache may differ from page to page. A read that ends early ends in front of a page in
        trouble. */
    method GenericFileRead(inode: nat, pos: nat, count: int, regular: bool, luck: nat -> Luck)
      returns (ret: int, out: seq<Byte>, pos': nat)
      requires Valid()
      modifies this`entries, this`lru, this`hash, this`pageCount
      ensures Valid() && pos' == pos + |out| && out == Range(FileOf(files, inode), pos, |out|)
      ensures !regular ==> ret == -EINVAL && out == []
      ensures regular ==> ret == |out| || (ret < 0 && out == [])
      ensures regular ==> |out| <= ReadLength(FileOf(files, inode), pos, count)
      ensures inode in files ==> forall i :: 0 <= i < |out| ==>
        pos + i < files[inode].size
        && out[i] == if pos + i in files[inode].data then files[inode].data[pos + i] else 0
      ensures regular && inode in files && 0 <= count && pos <= files[inode].size
              && (forall q: nat :: luck(q) == Luck(true, true, Whole, true, Whole))
              && (forall k :: k in old(entries) ==> old(entries)[k].Uptodate?) ==>
        ret == |out| == if count <= files[inode].size - pos then count else files[inode].size - pos
      ensures regular && (|out| < ReadLength(FileOf(files, inode), pos, count) || ret < 0) ==>
        (out == [] || pos' % PAGE_SIZE == 0) && Trouble(old(entries), Key(inode, pos' / PAGE_SIZE),
          luck(pos' / PAGE_SIZE))
    {
      out, pos' := [], pos;
      if !regular { return -EINVAL, out, pos'; }
      if count <= 0 { return 0, out, pos'; }
      NoTrouble(entries, luck);
      LengthOf(FileOf(files, inode), pos, count);
      hide Range, PageOf, Trouble, ReadLength;
      ret, out, pos' := ReadPages(inode, pos, count, luck);
      RangeIs(FileOf(files, inode), pos, |out|);
    }

    /** The loop of generic_file_read. */
    method ReadPages(inode: nat, pos: nat, count: int, luck: nat -> Luck) returns (ret: int, out: seq<Byte>, pos': nat)
      requires Valid() && count > 0
      modifies this`entries, this`lru, this`hash, this`pageCount
      ensures Valid() && pos' == pos + |out| && out == Range(FileOf(files, inode), pos, |out|)
      ensures ret == |out| || (ret < 0 && out == [])
      ensures |out| <= ReadLength(FileOf(files, inode), pos, count)
      ensures |out| < ReadLength(FileOf(files, inode), pos, count) || ret < 0 ==>
        && (out == [] || pos' % PAGE_SIZE == 0)
        && Trouble(old(entries), Key(inode, pos' / PAGE_SIZE), luck(pos' / PAGE_SIZE))
    {
      hide NoDup, HashIndex, ListsOk, PagesOk, Trouble, ReadLength, Range, PageOf, FileOf;
      out, pos' := [], pos;
      LengthOf(FileOf(files, inode), pos, count);
      ghost var f := FileOf(files, inode);
      while |out| < count
        invariant Valid() && pos' == pos + |out| && out == Range(f, pos, |out|) && |out| <= ReadLength(f, pos, count)
        invariant out == [] || pos' % PAGE_SIZE == 0 || |out| == ReadLength(f, pos, count)
        invariant forall x ::
          x in entries && entries[x].Error? && (x.inode != inode || x.index * PAGE_SIZE >= pos' || out == []) ==>
            x in old(entries) && old(entries)[x].Error?
        decreases count - |out|
      {
        if pos' >= FileOf(files, inode).size { break; }
        var available := FileOf(files, inode).size - pos';
        var chunk := PAGE_SIZE - pos' % PAGE_SIZE;
        if chunk > available { chunk := available; }
        if chunk > count - |out| { chunk := count - |out|; }
        ghost var k, was := Key(inode, pos' / PAGE_SIZE), entries;
        var bytes, error := ReadChunk(inode, pos', chunk, luck(pos' / PAGE_SIZE));
        if error != 0 {
          TroubleBefore(old(entries), was, k, luck(pos' / PAGE_SIZE));
          return if |out| > 0 then |out| else error, out, pos';
        }
        RangeMore(f, pos, |out|, chunk);
        out := out + bytes;
        pos' := pos' + chunk;
      }
      ret := |out|;
    }
  }

  lemma TroubleBefore(before: map<Key, Entry>, now: map<Key, Entry>, k: Key, l: Luck)
    requires Trouble(now, k, l) && (k in now && now[k].Error? ==> k in before && before[k].Error?)
    ensures Trouble(before, k, l)
  {
  }

  lemma RangeIs(f: File, pos: nat, n: nat)
    requires n == 0 || pos + n <= f.size
    ensures forall i :: 0 <= i < n ==>
      pos + i < f.size && Range(f, pos, n)[i] == if pos + i in f.data then f.data[pos + i] else 0
  {
    forall i | 0 <= i < n
      ensures pos + i < f.size && Range(f, pos, n)[i] == if pos + i in f.data then f.data[pos + i] else 0
    {
      assert Range(f, pos, n)[i] == ByteOf(f, pos + i);
    }
  }

  /** When everything goes well no page is in trouble. */
  lemma NoTrouble(entries: map<Key, Entry>, luck: nat -> Luck)
    ensures (forall q: nat :: luck(q) == Luck(true, true, Whole, true, Whole))
            && (forall k :: k in entries ==> entries[k].Uptodate?) ==>
      forall k: Key :: !Trouble(entries, k, luck(k.index))
  {
  }

  lemma LengthOf(f: File, pos: nat, count: int)
    ensures ReadLength(f, pos, count) == if count <= 0 || pos >= f.size then 0 else Min(count, f.size - pos)
  {
  }

  lemma ListsRemoved(entries: map<Key, Entry>, lru: seq<Key>, hash: seq<seq<Key>>, k: Key)
    requires ListsOk(entries, lru, hash) && k in entries
    ensures var h := HashIndex(k);
      ListsOk(entries - {k}, Remove(lru, k), hash[h := Remove(hash[h], k)]) && |Remove(lru, k)| == |lru| - 1
  {
    Removed(lru, k);
    Removed(hash[HashIndex(k)], k);
    hide NoDup, HashIndex;
  }

  lemma ListsAdded(entries: map<Key, Entry>, lru: seq<Key>, hash: seq<seq<Key>>, k: Key, e: Entry)
    requires ListsOk(entries, lru, hash) && k !in entries && |lru| < FILEMAP_MAX_PAGES
    ensures var h := HashIndex(k); ListsOk(entries[k := e], [k] + lru, hash[h := [k] + hash[h]])
  {
    Pushed(lru, k);
    Pushed(hash[HashIndex(k)], k);
    hide NoDup, HashIndex;
  }

  predicate Evictable(e: Entry) { e.Uptodate? && e.refs == 0 }

  lemma ListsSame(entries: map<Key, Entry>, lru: seq<Key>, hash: seq<seq<Key>>, k: Key, e: Entry)
    requires ListsOk(entries, lru, hash) && k in entries
    ensures ListsOk(entries[k := e], lru, hash)
  {
    hide NoDup, HashIndex;
  }

  /** A page of the valid bytes and zeroes is the page of the file. */
  lemma PageBytes(f: File, index: nat, page: Page)
    requires |page| == PAGE_SIZE && forall j :: 0 <= j < PAGE_SIZE ==> page[j] == ByteOf(f, index * PAGE_SIZE + j)
    ensures page == PageOf(f, index)
  {
  }

  lemma {:induction false} NoDupAt(q: seq<Key>, i: nat)
    requires NoDup(q) && i < |q|
    ensures q[i] !in q[..i]
  {
    if i > 0 {
      NoDupAt(q[1..], i - 1);
      assert q[..i] == [q[0]] + q[1..][..i - 1] && q[1..][i - 1] == q[i] && q[i] in q[1..];
    }
  }

  /** The page is not wholly behind `from` in the file being cut. */
  predicate Survives(k: Key, inode: nat, from: nat) { k.inode != inode || k.index * PAGE_SIZE < from }

  /** What is left of a page when its file is cut at `from`. */
  function Cut(e: Entry, k: Key, inode: nat, from: nat): Entry
  {
    var start := k.index * PAGE_SIZE;
    if k.inode == inode && e.Uptodate? && start < from < start + PAGE_SIZE && |e.page| == PAGE_SIZE
    then e.(page := e.page[..from - start] + seq<Byte>(PAGE_SIZE - (from - start), _ => 0)) else e
  }

  function Truncated(f: File, size: nat): File { File(size, map i | i in f.data && i < size :: f.data[i]) }

  lemma CutOk(e: Entry, k: Key, files: map<nat, File>, inode: nat, size: nat)
    requires EntryOk(e, k, files) && inode in files && size <= files[inode].size && Survives(k, inode, size)
    ensures EntryOk(Cut(e, k, inode, size), k, files[inode := Truncated(files[inode], size)])
  {
    if k.inode == inode && e.Uptodate? {
      var f, p := files[inode], Cut(e, k, inode, size).page;
      forall j | 0 <= j < PAGE_SIZE ensures p[j] == ByteOf(Truncated(f, size), k.index * PAGE_SIZE + j) {
        assert e.page[j] == ByteOf(f, k.index * PAGE_SIZE + j);
      }
      PageBytes(Truncated(f, size), k.index, p);
    }
  }

  predicate InRange(i: nat, offset: nat, n: nat) { offset <= i < offset + n }

  /** The file after a write; a gap reads as zeroes. */
  function Written(f: File, offset: nat, bytes: seq<Byte>): File
  {
    File(if bytes != [] && offset + |bytes| > f.size then offset + |bytes| else f.size,
         f.data + map i: nat | offset <= i < offset + |bytes| && InRange(i, offset, |bytes|) :: bytes[i - offset])
  }

  /** Bytes copied into a cached page. */
  function Patched(e: Entry, at: nat, bytes: seq<Byte>): Entry
  {
    if e.Uptodate? && at + |bytes| <= |e.page| then e.(page := e.page[..at] + bytes + e.page[at + |bytes|..]) else e
  }

  lemma WrittenByte(f: File, offset: nat, bytes: seq<Byte>, i: nat)
    requires FileOk(f)
    ensures ByteOf(Written(f, offset, bytes), i) == if offset <= i < offset + |bytes| then bytes[i - offset]
      else ByteOf(f, i)
  {
  }

  lemma WrittenNothing(entries: map<Key, Entry>, files: map<nat, File>, inode: nat, offset: nat)
    requires PagesOk(entries, files)
    ensures PagesOk(entries, files[inode := Written(FileOf(files, inode), offset, [])])
  {
    var f := FileOf(files, inode);
    assert Written(f, offset, []).data == f.data;
    forall k | k in entries ensures EntryOk(entries[k], k, files[inode := Written(f, offset, [])]) {
      assert EntryOk(entries[k], k, files);
    }
  }

  /** One chunk of a write brings its page up to date and leaves the others so. */
  lemma PatchedOk(before: map<Key, Entry>, after: map<Key, Entry>, files: map<nat, File>, inode: nat, f: File,
                  offset: nat, bytes: seq<Byte>, done: nat, chunk: nat)
    requires FileOk(f) && done + chunk <= |bytes|
    requires PagesOk(before, files[inode := Written(f, offset, bytes[..done])])
    requires var at := offset + done; var k := Key(inode, at / PAGE_SIZE);
      && at % PAGE_SIZE + chunk <= PAGE_SIZE
      && after == if k in before && before[k].Uptodate?
        then before[k := Patched(before[k], at % PAGE_SIZE, bytes[done..][..chunk])] else before
    ensures PagesOk(after, files[inode := Written(f, offset, bytes[..done + chunk])])
  {
    var at := offset + done;
    forall k | k in after ensures EntryOk(after[k], k, files[inode := Written(f, offset, bytes[..done + chunk])]) {
      assert EntryOk(before[k], k, files[inode := Written(f, offset, bytes[..done])]);
      if k.inode == inode && after[k].Uptodate? {
        ChunkOk(before[k], after[k], k.index, f, offset, bytes, done, chunk);
      }
    }
  }

  lemma ChunkOk(e: Entry, e': Entry, index: nat, f: File, offset: nat, bytes: seq<Byte>, done: nat, chunk: nat)
    requires FileOk(f) && done + chunk <= |bytes| && e.Uptodate?
      && e.page == PageOf(Written(f, offset, bytes[..done]), index)
    requires var at := offset + done;
      && at % PAGE_SIZE + chunk <= PAGE_SIZE
      && e' == if index == at / PAGE_SIZE then Patched(e, at % PAGE_SIZE, bytes[done..][..chunk]) else e
    ensures e'.page == PageOf(Written(f, offset, bytes[..done + chunk]), index)
  {
    var was, now, at := Written(f, offset, bytes[..done]), Written(f, offset, bytes[..done + chunk]), offset + done;
    assert |e'.page| == PAGE_SIZE;
    forall j: nat | j < PAGE_SIZE ensures e'.page[j] == ByteOf(now, index * PAGE_SIZE + j) {
      ByteInChunk(e, e', index, f, offset, bytes, done, chunk, j);
    }
    PageBytes(now, index, e'.page);
  }

  lemma ByteInChunk(e: Entry, e': Entry, index: nat, f: File, offset: nat, bytes: seq<Byte>, done: nat, chunk: nat,
                    j: nat)
    requires FileOk(f) && done + chunk <= |bytes| && e.Uptodate?
      && e.page == PageOf(Written(f, offset, bytes[..done]), index)
    requires var at := offset + done;
      && at % PAGE_SIZE + chunk <= PAGE_SIZE
      && e' == if index == at / PAGE_SIZE then Patched(e, at % PAGE_SIZE, bytes[done..][..chunk]) else e
    requires j < PAGE_SIZE
    ensures e'.page[j] == ByteOf(Written(f, offset, bytes[..done + chunk]), index * PAGE_SIZE + j)
  {
    hide Written, ByteOf, PageOf, FileOk;
    var i, at := index * PAGE_SIZE + j, offset + done;
    PageByte(Written(f, offset, bytes[..done]), index, j);
    WrittenByte(f, offset, bytes[..done], i);
    WrittenByte(f, offset, bytes[..done + chunk], i);
    InChunk(at, chunk, index, j);
    if at <= i < at + chunk {
      assert i == at + (j - at % PAGE_SIZE);
      assert bytes[done..][..chunk][j - at % PAGE_SIZE] == bytes[i - offset];
    }
  }

  lemma PageByte(f: File, index: nat, j: nat)
    requires j < PAGE_SIZE
    ensures PageOf(f, index)[j] == ByteOf(f, index * PAGE_SIZE + j)
  {
  }

  lemma InChunk(at: nat, chunk: nat, index: nat, j: nat)
    requires at % PAGE_SIZE + chunk <= PAGE_SIZE && j < PAGE_SIZE
    ensures at <= index * PAGE_SIZE + j < at + chunk <==>
      index == at / PAGE_SIZE && at % PAGE_SIZE <= j < at % PAGE_SIZE + chunk
  {
  }

  function Range(f: File, pos: nat, n: nat): (s: seq<Byte>)
    ensures |s| == n
  {
    seq<Byte>(n, j requires 0 <= j < n => ByteOf(f, pos + j))
  }

  /** min(count, size - pos) */
  function ReadLength(f: File, pos: nat, count: int): nat
  {
    if count <= 0 || pos >= f.size then 0 else if count < f.size - pos then count else f.size - pos
  }

  lemma RangeMore(f: File, pos: nat, n: nat, chunk: nat)
    requires (pos + n) % PAGE_SIZE + chunk <= PAGE_SIZE
    ensures var at := (pos + n) % PAGE_SIZE;
      Range(f, pos, n + chunk) == Range(f, pos, n) + PageOf(f, (pos + n) / PAGE_SIZE)[at..at + chunk]
  {
    var at := (pos + n) % PAGE_SIZE;
    var part := PageOf(f, (pos + n) / PAGE_SIZE)[at..at + chunk];
    forall j: nat | j < chunk ensures part[j] == ByteOf(f, pos + n + j) {}
  }

  /** What is written reads back, and everything else reads as before. */
  lemma WriteThenRead(f: File, offset: nat, bytes: seq<Byte>, pos: nat, n: nat)
    requires FileOk(f)
    ensures Range(Written(f, offset, bytes), offset, |bytes|) == bytes
    ensures pos + n <= offset || offset + |bytes| <= pos ==>
      Range(Written(f, offset, bytes), pos, n) == Range(f, pos, n)
  {
    var f' := Written(f, offset, bytes);
    forall j: nat | j < |bytes|
      ensures Range(f', offset, |bytes|)[j] == bytes[j]
    {
      WrittenByte(f, offset, bytes, offset + j);
    }
    if pos + n <= offset || offset + |bytes| <= pos {
      forall j: nat | j < n
        ensures Range(f', pos, n)[j] == Range(f, pos, n)[j]
      {
        WrittenByte(f, offset, bytes, pos + j);
      }
    }
  }
}
