/** What one connection writes and another reads. */
module Connections {
  import opened Words
  import opened Sqlite
  import opened Inodes
  import opened Header
  import opened OpfsVfses

  /**
   * opfsWrite by one file and opfsRead by another on the same slot: the reader
   * gets what was written, wherever that was, and elsewhere what it would have
   * got before, zeros past the end.
   */
  method WriteThenRead(vfs: OpfsVfs, f: OpfsFile, g: OpfsFile, data: Bytes, off: nat, buf: array<Byte>, at: nat)
    returns (rc: Rc)
    requires vfs.Valid() && f in vfs.open && g in vfs.open && f.slot == g.slot
    modifies vfs.pool.dir, buf
    ensures forall k :: 0 <= k < buf.Length ==>
              buf[k] == if off <= at + k < off + |data| then data[at + k - off]
                        else old(ByteAt(vfs.SlotData(g), at + k))
    ensures off <= at && at + buf.Length <= off + |data| ==> rc == Ok && buf[..] == data[at - off..][..buf.Length]
  {
    hide OpfsVfs.Valid, OpfsVfs.SlotData;
    var written := vfs.Write(f, data, off);
    rc := vfs.Read(g, buf, at);
  }

  /** Two connections on one path share a slot as long as both have kept theirs. */
  method WriteThenReadPath(vfs: OpfsVfs, f: OpfsFile, g: OpfsFile, data: Bytes, off: nat, buf: array<Byte>)
    returns (rc: Rc)
    requires vfs.Valid() && f in vfs.open && g in vfs.open && f.inode == g.inode && vfs.Keeps(f) && vfs.Keeps(g)
    requires buf.Length == |data|
    modifies vfs.pool.dir, buf
    ensures rc == Ok && buf[..] == data
  {
    vfs.SlotsMirrorPaths(f, g);
    hide OpfsVfs.Valid, OpfsVfs.SlotData;
    rc := WriteThenRead(vfs, f, g, data, off, buf, off);
  }
}
