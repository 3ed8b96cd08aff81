/** The safety conditions can be met: a fresh volume takes any file or directory in its root. */
module FirstUse {
  import opened Bytes
  import opened Layout
  import opened Metadata
  import opened Volume
  import opened Directory
  import opened Operations
  import opened Writing
  import opened Format

  /** The image file starts out as zeros. */
  lemma ZeroImageIsBlank()
    ensures Blank(seq(8192, i => ZeroBlock()))
  {
    hide ZeroBlock, IsBlockBitmap, IsInodeBitmap;
  }

  /** In a block of "." and ".." there is room for any name but these two, behind "..". */
  lemma RoomAfterDots(self: u32, parent: u32, name: Name)
    requires self != 0 && parent != 0 && name != DOT && name != DOTDOT
    ensures var b := NewDirBlock(self, parent); Chain(b, 0) && ScanForHole(b, 0, name, RecordLen(|name|)) == Hole(12)
  {
    hide U16At, U32At, EncEntry, SlackZero, NewDirBlock;
    var b := NewDirBlock(self, parent);
    NewDirBlockSpec(self, parent);
    DotRecords(self, parent);
    assert RecordLen(1) == 12 && RecordLen(2) == 12;
  }

  lemma DotRecords(self: u32, parent: u32)
    requires self != 0 && parent != 0
    ensures var b := NewDirBlock(self, parent);
      && Sound(b, 0) && Live(b, 0) && RecLen(b, 0) == 12 && NameLen(b, 0) == 1 && NameAt(b, 0) == DOT
      && Sound(b, 12) && Live(b, 12) && RecLen(b, 12) == 500 && NameLen(b, 12) == 2 && NameAt(b, 12) == DOTDOT
  {
    hide U16At, U32At, EncEntry;
    var b1: Block := Splice(ZeroBlock(), 0, EncEntry(self, 12, EXT2_FT_DIR, DOT));
    var b := NewDirBlock(self, parent);
    assert b[0..10] == b1[0..10];
    EncEntryRead(b, 0, self, 12, EXT2_FT_DIR, DOT);
    EncEntryRead(b, 12, parent, 500, EXT2_FT_DIR, DOTDOT);
  }

  lemma FreshRoot(d: Disk, signature: Block)
    requires Blank(d)
    ensures var v := Mount(CreateExt2(d, signature));
      Node(v.disk, 1) == DirNode(ZeroInode(), 21) && v.disk[21] == NewDirBlock(1, 1)
  {
    hide CreateExt2, Node, NewDirBlock, DirNode, Blank;
    FreshNode(d, signature, 1);
    FormattedAt(d, signature, 21);
  }

  lemma FreshRoom(d: Disk, signature: Block)
    requires Blank(d)
    ensures var v := Mount(CreateExt2(d, signature));
      var ino := FirstFreeInode(v.disk, 1); ValidInode(ino) && RoomForDir(v.disk, ino)
  {
    hide CreateExt2, InodeUsed, Used, Blank, FirstFree, FirstFreeInode, Meta;
    var disk := CreateExt2(d, signature);
    FreshInodeUsed(d, signature, 2);
    FirstFreeInodeSpec(disk, 1);
    FreshUsed(d, signature, 2047);
    FreshUsed(d, signature, 0);
    LastBlock();
    FirstFreeSpec(disk, 256 * InodeToBgd(FirstFreeInode(disk, 1)));
  }

  lemma LastBlock()
    ensures !Meta(2047) && Meta(0)
  {}

  lemma RootHasRoom(d: Disk, n: Inode, name: Name)
    requires n == DirNode(ZeroInode(), 21) && d[21] == NewDirBlock(1, 1) && name != DOT && name != DOTDOT
    ensures DirOK(d, n) && FindRoom(d, n, 0, name) == InHole(0, 12)
  {
    hide Chain, ScanForHole, NewDirBlock;
    RoomAfterDots(1, 1, name);
  }

  /** Any file or directory may be written to a fresh root under any name but the dots, and the write succeeds. */
  lemma FreshAccepts(d: Disk, signature: Block, q: Request)
    requires Blank(d) && ValidRequest(q) && q.parent == 1 && q.name != DOT && q.name != DOTDOT
    ensures var v := Mount(CreateExt2(d, signature)); ParentOK(v, q) && WriteSafe(v, q) && WriteCode(v, q) == 0
  {
    hide CreateExt2, Blank, Node, FindRoom, DirOK, IsDirMode, FirstFreeInode, RoomForDir, Populate, AllocNode, Insert,
      NewDirBlock, Sound, RecordLen, SlackLen, DirBlockOK;
    var v := Mount(CreateExt2(d, signature));
    FreshRoot(d, signature);
    FreshRoom(d, signature);
    RootHasRoom(v.disk, Node(v.disk, 1), q.name);
    Modes();
  }
}
