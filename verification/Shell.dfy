/** The shell's path commands as they run: buffers of fixed size, filled and scanned byte by byte. */
module Shell {
  import opened Bytes
  import opened Options
  import opened Metadata
  import opened Volume
  import opened Directory
  import opened Operations
  import opened PathText
  import opened Paths
  import opened Driver
  import opened Invariant
  import opened Runs
  import opened Mounted

  /** The preconditions of `read_directory` hold for every directory; they always do between operations. */
  ghost predicate Callable(v: Volume) {
    && Geometry(v.bgdt)
    && forall k: nat :: k <= 896 ==> ParentOK(v, DotRequest(k)) && TargetOK(v, DotRequest(k))
  }

  function Row(a: array2<byte>, i: nat): (r: seq<byte>)
    requires i < a.Length0
    reads a
    ensures |r| == a.Length1 && forall j :: 0 <= j < a.Length1 ==> r[j] == a[i, j]
  {
    seq(a.Length1, j requires 0 <= j < a.Length1 reads a => a[i, j])
  }

  lemma Terminated(row: seq<byte>, s: seq<byte>)
    requires |s| < |row| && row[..|s|] == s && row[|s|] == 0
    ensures Str(row) == Str(s)
  {
    var n := |Str(s)|;
    assert row[..n] == s[..n];
    if n < |s| { assert row[n] == s[n]; }
    StrWhole(row, n);
  }

  /** Bytes `from` on of `src`, `len` of them, and a terminator become row `i`. */
  method PutComponent(src: seq<byte>, from: nat, len: nat, rows: array2<byte>, i: nat)
    requires from + len <= |src| && i < rows.Length0 && len < rows.Length1
    modifies rows
    ensures Str(Row(rows, i)) == Str(src[from..from + len])
    ensures forall r :: 0 <= r < rows.Length0 && r != i ==> Row(rows, r) == old(Row(rows, r))
  {
    var j := 0;
    while j < len
      invariant j <= len
      invariant forall c :: 0 <= c < j ==> rows[i, c] == src[from + c]
      invariant forall r, c :: 0 <= r < rows.Length0 && 0 <= c < rows.Length1 && r != i ==>
          rows[r, c] == old(rows[r, c])
    {
      rows[i, j] := src[from + j];
      j := j + 1;
    }
    rows[i, len] := 0;
    assert Row(rows, i)[..len] == src[from..from + len];
    Terminated(Row(rows, i), src[from..from + len]);
    forall r | 0 <= r < rows.Length0 && r != i ensures Row(rows, r) == old(Row(rows, r)) {
      assert forall c :: 0 <= c < rows.Length1 ==> Row(rows, r)[c] == old(Row(rows, r))[c];
    }
  }

  // ----- split_path -----

  ghost predicate Rows(a: array2<byte>, out: seq<CString>)
    requires |out| <= a.Length0
    reads a
  {
    forall i :: 0 <= i < |out| ==> Str(Row(a, i)) == out[i]
  }

  /** What is still to come from position `from`, when `out` has been delivered. */
  function Rest(path: CString, from: nat, out: seq<CString>, max: nat): seq<CString>
    requires from <= |path|
  {
    Head(out + Shorts(Words(path[from..])), max)
  }

  lemma RestSlash(path: CString, from: nat, out: seq<CString>, max: nat)
    requires from < |path| && path[from] == SLASH
    ensures Rest(path, from, out, max) == Rest(path, from + 1, out, max)
  {
    assert path[from..][1..] == path[from + 1..];
  }

  lemma RestWord(path: CString, from: nat, len: nat, out: seq<CString>, max: nat)
    requires 0 < len && from + len <= |path| && SLASH !in path[from..from + len]
    requires from + len < |path| ==> path[from + len] == SLASH
    ensures 0 !in path[from..from + len]
    ensures Rest(path, from, out, max) ==
      Rest(path, from + len, if len < MAX_COMPONENT then out + [path[from..from + len]] else out, max)
  {
    hide WordLen;
    var p, w := path[from..], path[from..from + len];
    assert p[..len] == w && p[len..] == path[from + len..];
    assert p[0] == w[0];
    WordLenIs(p, len);
    assert Words(p) == [w] + Words(path[from + len..]);
    assert ([w] + Words(path[from + len..]))[1..] == Words(path[from + len..]);
    assert out + ([w] + Shorts(Words(path[from + len..]))) == out + [w] + Shorts(Words(path[from + len..]));
    assert [] + Shorts(Words(path[from + len..])) == Shorts(Words(path[from + len..]));
  }

  lemma RestDone(path: CString, from: nat, out: seq<CString>, max: nat)
    requires from <= |path| && |out| <= max && (from == |path| || |out| == max)
    ensures Rest(path, from, out, max) == out
  {}

  lemma RestStart(path: CString, max: nat)
    ensures Rest(path, 0, [], max) == SplitPath(path, max)
  {
    assert path[0..] == path;
    assert [] + Shorts(Words(path)) == Shorts(Words(path));
  }

  /** The end of a word: unless it is too long it becomes the next component. */
  method TakeComponent(path: CString, compStart: nat, compLen: nat, components: array2<byte>, count: nat,
      ghost out: seq<CString>)
    returns (n: nat, ghost out': seq<CString>)
    requires 0 < compLen && compStart + compLen <= |path| && SLASH !in path[compStart..compStart + compLen]
    requires compStart + compLen < |path| ==> path[compStart + compLen] == SLASH
    requires components.Length1 == 64 && count == |out| < components.Length0 && Rows(components, out)
    modifies components
    ensures n == |out'| <= components.Length0 && Rows(components, out')
    ensures Rest(path, compStart + compLen, out', components.Length0) == Rest(path, compStart, out, components.Length0)
  {
    hide Rest, Str, Row, Words;
    n, out' := count, out;
    RestWord(path, compStart, compLen, out, components.Length0);
    if compLen < MAX_COMPONENT {
      StrSlice(path, compStart, compLen);
      PutComponent(path, compStart, compLen, components, count);
      out' := out + [path[compStart..compStart + compLen]];
      n := count + 1;
    }
  }

  /** `split_path`; the string ends where `path` does. */
  method SplitComponents(path: CString, components: array2<byte>, max: nat) returns (count: nat)
    requires components.Length0 == max && components.Length1 == 64
    modifies components
    ensures count == |SplitPath(path, max)| && Rows(components, SplitPath(path, max))
  {
    hide SplitPath, Rest, Rows, Words;
    ghost var out: seq<CString> := [];
    count := 0;
    var i := 0;
    RestStart(path, max);
    while i < |path| && path[i] == SLASH
      invariant i <= |path| && Rest(path, i, out, max) == SplitPath(path, max)
    {
      RestSlash(path, i, out, max);
      i := i + 1;
    }
    NoRows(components);
    var compStart, compLen := i, 0;
    while i < |path| && count < max
      invariant i <= |path| && compStart + compLen == i && SLASH !in path[compStart..i]
      invariant count == |out| <= max && Rows(components, out)
      invariant count == max ==> compLen == 0
      invariant Rest(path, compStart, out, max) == SplitPath(path, max)
    {
      if path[i] == SLASH {
        if compLen > 0 {
          count, out := TakeComponent(path, compStart, compLen, components, count, out);
          compLen := 0;
        }
        i := SkipSlashes(path, i, out, max);
        compStart := i;
      } else {
        assert path[compStart..i + 1] == path[compStart..i] + [path[i]];
        compLen := compLen + 1;
        i := i + 1;
      }
    }
    if compLen > 0 && count < max {
      count, out := TakeComponent(path, compStart, compLen, components, count, out);
      compStart := i;
    }
    RestDone(path, compStart, out, max);
  }

  /** `while (path[i] == '/') i++`. */
  method SkipSlashes(path: CString, from: nat, ghost out: seq<CString>, ghost max: nat) returns (i: nat)
    requires from < |path| && path[from] == SLASH
    ensures from < i <= |path| && (i < |path| ==> path[i] != SLASH)
    ensures Rest(path, i, out, max) == Rest(path, from, out, max)
  {
    hide Rest;
    i := from;
    while i < |path| && path[i] == SLASH
      invariant from <= i <= |path| && Rest(path, i, out, max) == Rest(path, from, out, max)
    {
      RestSlash(path, i, out, max);
      i := i + 1;
    }
  }

  lemma NoRows(a: array2<byte>)
    ensures Rows(a, [])
  {}

  lemma StrSlice(path: CString, from: nat, len: nat)
    requires from + len <= |path|
    ensures 0 !in path[from..from + len] && Str(path[from..from + len]) == path[from..from + len]
  {
    var w := path[from..from + len];
    assert w[..|w|] == w;
    StrWhole(w, |w|);
  }

  // ----- C strings in a buffer -----

  const PATH_MEMORY := 2048

  lemma AppendedString(was: seq<byte>, now: seq<byte>, end: nat, src: CString)
    requires end == |Str(was)| && |now| == |was| && end + |src| < |now|
    requires now[..end] == was[..end] && now[end..end + |src|] == src && now[end + |src|] == 0
    ensures Str(now) == Str(was) + src
  {
    var s := Str(was) + src;
    assert now[..end + |src|] == now[..end] + now[end..end + |src|];
    assert now[..|s|] == s;
    StrWhole(now, |s|);
  }

  /** Nothing past byte `n` was written. */
  ghost predicate KeptBeyond(was: seq<byte>, now: seq<byte>, n: nat) {
    |now| == |was| && forall i :: n < i < |was| ==> now[i] == was[i]
  }

  /** `strcat`. */
  method StrCat(dest: array<byte>, src: CString)
    requires |Str(dest[..])| + |src| < dest.Length
    modifies dest
    ensures Str(dest[..]) == old(Str(dest[..])) + src && KeptBeyond(old(dest[..]), dest[..], |Str(dest[..])|)
  {
    hide Str;
    ghost var was := dest[..];
    var end := 0;
    NotYet(was, 0);
    while dest[end] != 0
      invariant end <= |Str(was)| && dest[..] == was
      decreases dest.Length - end
    {
      NotYet(was, end);
      end := end + 1;
    }
    AtTerminator(was, end);
    var i := 0;
    while i < |src|
      invariant i <= |src| && |dest[..]| == |was| && dest[..end] == was[..end] && dest[end..end + i] == src[..i]
      invariant forall j :: end + i <= j < dest.Length ==> dest[j] == was[j]
    {
      dest[end + i] := src[i];
      i := i + 1;
    }
    dest[end + |src|] := 0;
    AppendedString(was, dest[..], end, src);
    assert forall j :: end + |src| < j < dest.Length ==> dest[..][j] == was[j];
  }

  lemma NotYet(s: seq<byte>, i: nat)
    requires i <= |Str(s)| && |Str(s)| < |s|
    ensures s[i] != 0 ==> i < |Str(s)|
  {}

  lemma AtTerminator(s: seq<byte>, i: nat)
    requires i <= |Str(s)| < |s| && s[i] == 0
    ensures i == |Str(s)|
  {
    assert forall j :: 0 <= j < |Str(s)| ==> s[j] == s[..|Str(s)|][j];
    assert forall j :: 0 <= j < |Str(s)| ==> Str(s)[j] in Str(s);
  }

  // ----- reading directories and walking -----

  class UserShell {
    const fs: Ext2
    var currentInode: nat
    /** The 256 bytes of the buffer, and what lies behind them in memory. */
    const currentPath: array<byte>

    ghost predicate Valid()
      reads this, fs
    {
      currentPath.Length >= PATH_MEMORY && Callable(fs.V())
    }

    constructor (disk: Ext2)
      ensures fs == disk && currentInode == 1 && currentPath.Length == PATH_MEMORY && fresh(currentPath)
      ensures Str(currentPath[..]) == [SLASH]
    {
      fs := disk;
      currentInode := 1;
      currentPath := new byte[PATH_MEMORY](i => if i == 0 then SLASH else 0);
      new;
      assert currentPath[..][..1] == [SLASH];
      StrWhole(currentPath[..], 1);
    }

    /** System call 1 on "."; an inode number outside the volume is taken to fail. */
    method ReadDot(ino: nat, r: Residue) returns (ok: bool, view: Buffer)
      requires Valid()
      ensures ok == DirBuffer(fs.V(), ino, r).Some? && (ok ==> view == DirBuffer(fs.V(), ino, r).value)
    {
      hide Callable, Geometry, ParentOK, TargetOK, ReadDirectoryOp, BufferFilled;
      ok, view := false, r.stack;
      if ino > 896 { return; }
      CallableAt(fs.V(), ino);
      var dataBuffer := new byte[8192](i requires 0 <= i < 8192 => r.stack[i]);
      ghost var was := dataBuffer[..];
      assert was == r.stack[..8192];
      var code := fs.ReadDirectory(DotRequest(ino), dataBuffer, r.spill);
      if code == 0 {
        ok, view := true, dataBuffer[..] + r.stack[8192..];
        ViewIsShown(r.stack, was, dataBuffer[..], ReadDirectoryOp(fs.V(), DotRequest(ino), 8192, r.spill).bytes);
      }
    }

    /** `get_parent_inode`. */
    method GetParentInode(ino: nat, r: Residue) returns (parent: u32)
      requires Valid()
      ensures parent == GetParent(fs.V(), ino, r)
    {
      hide Callable, DirBuffer, U16At, U32At;
      if ino == 1 { return 1; }
      var ok, data := ReadDot(ino, r);
      if !ok { return 1; }
      var offset := 0;
      if U16At(data, offset + 4) == 0 { return 1; }
      offset := offset + U16At(data, offset + 4);
      if offset < BUFFER_SIZE {
        if U16At(data, offset + 6) == 2 {
          if data[offset + 9] == 46 && data[offset + 10] == 46 { return U32At(data, offset); }
        }
      }
      parent := 1;
    }

    /** `find_child_inode`. */
    method FindChildInode(parent: nat, name: Name, r: Residue) returns (child: u32)
      requires Valid()
      ensures child == FindChild(fs.V(), parent, name, r)
    {
      hide Callable, DirBuffer, U16At, U32At, ScanChild;
      if parent == 0 { return 0; }
      var ok, data := ReadDot(parent, r);
      if !ok { return 0; }
      var offset := 0;
      while offset < BUFFER_SIZE
        invariant ScanChild(data, offset, name) == ScanChild(data, 0, name)
        decreases BUFFER_SIZE - offset
      {
        ScanChildTurn(data, offset, name);
        var recLen := U16At(data, offset + 4);
        if recLen == 0 || offset + recLen > BUFFER_SIZE { break; }
        if U32At(data, offset) != 0 && data[offset + 8] == EXT2_FT_DIR && U16At(data, offset + 6) == |name| {
          var match_ := SameBytes(data, offset + 9, name);
          if match_ { return U32At(data, offset); }
        }
        offset := offset + recLen;
      }
      ScanChildTurn(data, offset, name);
      child := 0;
    }

    /** The byte-by-byte comparison of `find_child_inode`. */
    method SameBytes(data: Buffer, from: nat, name: Name) returns (same: bool)
      requires from + |name| <= |data|
      ensures same == (data[from..from + |name|] == name)
    {
      var i := 0;
      while i < |name|
        invariant i <= |name| && data[from..from + i] == name[..i]
      {
        if data[from + i] != name[i] {
          assert data[from..from + |name|][i] != name[i];
          return false;
        }
        assert data[from..from + i + 1] == data[from..from + i] + [data[from + i]];
        assert name[..i + 1] == name[..i] + [name[i]];
        i := i + 1;
      }
      assert name[..|name|] == name;
      same := true;
    }

    /** `cd` with its arguments; without one it only prints how it is used. */
    method ChangeDirectory(args: seq<CString>, res: nat -> Residue)
      requires Valid()
      modifies this`currentInode
      ensures currentInode == if |args| < 2 then old(currentInode) else Cd(fs.V(), old(currentInode), args[1], res)
    {
      hide Callable, SplitPath, CdWalk, CdStep, Str, Row, Rows, AllPlain;
      if |args| < 2 { return; }
      var path := args[1];
      ghost var v, from := fs.V(), currentInode;
      var target := currentInode;
      if path != [] && path[0] == SLASH { target := 1; }
      ghost var start := target;
      var components := new byte[16, 64]((i, j) => 0);
      var count := SplitComponents(path, components, 16);
      ghost var cs := SplitPath(path, MAX_COMPONENTS);
      SplitIsPlain(path, MAX_COMPONENTS);
      var success, i := true, 0;
      assert cs[0..] == cs;
      while i < count && success
        invariant i <= count == |cs| && Rows(components, cs) && fs.V() == v && currentInode == from
        invariant CdWalk(v, start, cs, 0, res) == if success then CdWalk(v, target, cs[i..], i, res) else None
      {
        WalkTurn(v, target, cs, i, res);
        RowIs(components, cs, i);
        var c := Str(Row(components, i));
        var ok, next := ChangeOne(target, c, res(i));
        if !ok {
          success := false;
        } else {
          target := next;
        }
        i := i + 1;
      }
      if success {
        WalkEnds(v, target, cs, i, res);
        currentInode := target;
      }
    }

    /** The search of `update_path_display` for the name of inode `ino`, copied to row `depth`. */
    method FindNameOf(data: Buffer, ino: nat, parts: array2<byte>, depth: nat, ghost got: seq<CString>)
      returns (found: bool, ghost got': seq<CString>)
      requires parts.Length1 == 64 && depth == |got| < parts.Length0 && Rows(parts, got)
      modifies parts
      ensures found == ScanName(data, 0, ino).Some?
      ensures got' == if found then got + [Str(ScanName(data, 0, ino).value)] else got
      ensures Rows(parts, got')
    {
      hide U16At, U32At, ScanName, Str, Row;
      found, got' := false, got;
      var offset := 0;
      while offset < BUFFER_SIZE && !found
        invariant found ==> ScanName(data, 0, ino).Some? && got' == got + [Str(ScanName(data, 0, ino).value)]
        invariant !found ==> ScanName(data, offset, ino) == ScanName(data, 0, ino) && got' == got
        invariant Rows(parts, got')
        decreases BUFFER_SIZE - offset, if found then 0 else 1
      {
        ScanNameTurn(data, offset, ino);
        var recLen, nameLen := U16At(data, offset + 4), U16At(data, offset + 6);
        if recLen == 0 { break; }
        if U32At(data, offset) == ino && nameLen > 0 && nameLen < MAX_COMPONENT {
          var at := offset + 9;
          DotsByBytes(data, at, nameLen);
          if !(nameLen == 1 && data[at] == 46) && !(nameLen == 2 && data[at] == 46 && data[at + 1] == 46) {
            PutComponent(data, at, nameLen, parts, depth);
            got' := got + [Str(data[at..at + nameLen])];
            found := true;
          }
        }
        offset := offset + recLen;
      }
      if !found { ScanNameTurn(data, offset, ino); }
    }

    /** The climb of `update_path_display`: the names on the way up, one row each. */
    method CollectParts(parts: array2<byte>, res: nat -> Residue) returns (depth: nat)
      requires Valid() && parts.Length0 == 32 && parts.Length1 == 64
      modifies parts
      ensures depth == |PartsUp(fs.V(), currentInode, 0, res)| <= 31
      ensures Rows(parts, PartsUp(fs.V(), currentInode, 0, res))
    {
      hide Callable, PartsUp, GetParent, DirBuffer, ScanName, Rows, Str, Row, BufferFilled, Geometry, ParentOK,
        TargetOK;
      ghost var v := fs.V();
      ghost var got: seq<CString> := [];
      NoRows(parts);
      var inode: nat := currentInode;
      depth := 0;
      while inode != 1 && depth < MAX_DEPTH
        invariant Valid() && fs.V() == v && depth == |got| <= 31 && Rows(parts, got)
        invariant got + PartsUp(v, inode, depth, res) == PartsUp(v, currentInode, 0, res)
        decreases MAX_DEPTH - depth
      {
        PartsTurn(v, inode, depth, res);
        assert got + [] == got;
        var parent := GetParentInode(inode, res(2 * depth));
        if parent == inode { return; }
        var ok, data := ReadDot(parent, res(2 * depth + 1));
        if !ok { return; }
        var found;
        ghost var before := got;
        found, got := FindNameOf(data, inode, parts, depth, got);
        if !found { return; }
        depth := depth + 1;
        inode := parent;
        OneMorePart(before, got[|before|], PartsUp(v, inode, depth, res));
      }
      PartsTurn(v, inode, depth, res);
      assert got + [] == got;
    }

    /**
     * `update_path_display`. The string is written in place, past the end of the 256-byte buffer if it is longer: what
     * lies behind the buffer is left alone exactly when the path fits, terminator included.
     */
    method UpdatePathDisplay(res: nat -> Residue)
      requires Valid()
      modifies currentPath
      ensures Str(currentPath[..]) == Display(fs.V(), currentInode, res)
      ensures KeptBeyond(old(currentPath[..]), currentPath[..], |Display(fs.V(), currentInode, res)|)
    {
      hide Callable, PartsUp, Rows, Str, Row, Joined, Reversed, Appended, KeptBeyond;
      ghost var v, was := fs.V(), currentPath[..];
      ghost var parts := PartsUp(v, currentInode, 0, res);
      if currentInode == 1 {
        RootShown(v, res);
        StrRoot(currentPath);
        return;
      }
      var pathParts := new byte[32, 64]((i, j) => 0);
      var depth := CollectParts(pathParts, res);
      StrRoot(currentPath);
      PathIsShort(v, currentInode, res);
      JoinedNothing();
      ReversedLength(parts);
      assert Reversed(parts)[..0] == [];
      var i := depth;
      while i > 0
        invariant 0 <= i <= depth == |parts| && Rows(pathParts, parts) && pathParts.Length0 == 32
        invariant pathParts.Length1 == 64
        invariant fs.V() == v && KeptBeyond(was, currentPath[..], |Str(currentPath[..])|)
        invariant |Reversed(parts)| == |parts|
        invariant Str(currentPath[..]) == Joined(Reversed(parts)[..|parts| - i])
      {
        i := i - 1;
        JoinedTurn(parts, i);
        RowOf(pathParts, parts, i);
        ghost var now := currentPath[..];
        AppendOne(Str(Row(pathParts, i)));
        AppendedLonger(Str(now), parts[i]);
        KeptOn(was, now, currentPath[..]);
      }
      assert Reversed(parts)[..|parts|] == Reversed(parts);
    }

    /** A separator if the path has one name already, then the name. */
    method AppendOne(name: CString)
      requires |Appended(Str(currentPath[..]), name)| < currentPath.Length
      modifies currentPath
      ensures Str(currentPath[..]) == Appended(old(Str(currentPath[..])), name)
      ensures KeptBeyond(old(currentPath[..]), currentPath[..], |Str(currentPath[..])|)
    {
      hide Str;
      if |Str(currentPath[..])| > 1 { StrCat(currentPath, [SLASH]); }
      StrCat(currentPath, name);
    }

    /** One component of `cd`: what it leads to, if anything. */
    method ChangeOne(target: nat, c: CString, r: Residue) returns (ok: bool, next: nat)
      requires Valid() && |c| < 64
      ensures CdStep(fs.V(), target, c, r) == if ok then Some(next) else None
    {
      hide Callable, FindChild, GetParent;
      ok, next := true, target;
      if |c| == 0 { return; }
      if c == DOT { return; }
      if c == DOTDOT {
        var parent := GetParentInode(target, r);
        if parent != 0 { next := parent; }
      } else {
        var child := FindChildInode(target, c, r);
        if child == 0 { ok := false; } else { next := child; }
      }
    }
  }

  lemma CallableAt(v: Volume, k: nat)
    requires Callable(v) && k <= 896
    ensures Geometry(v.bgdt) && ValidRequest(DotRequest(k)) && ParentOK(v, DotRequest(k)) && TargetOK(v, DotRequest(k))
  {
    hide Geometry, ParentOK, TargetOK;
  }

  lemma ViewIsShown(stack: seq<byte>, was: seq<byte>, now: seq<byte>, bytes: seq<byte>)
    requires |stack| == 8704 && was == stack[..8192] && BufferFilled(now, was, bytes)
    ensures now + stack[8192..] == Shown(bytes, stack)
  {
    assert now == now[..|bytes|] + now[|bytes|..];
  }

  lemma WalkTurn(v: Volume, t: nat, cs: seq<CString>, i: nat, res: nat -> Residue)
    requires i < |cs|
    ensures CdWalk(v, t, cs[i..], i, res) ==
      match CdStep(v, t, cs[i], res(i))
      case None => None
      case Some(u) => CdWalk(v, u, cs[i + 1..], i + 1, res)
  {
    hide CdStep;
    assert cs[i..][0] == cs[i] && cs[i..][1..] == cs[i + 1..];
  }

  lemma WalkEnds(v: Volume, t: nat, cs: seq<CString>, i: nat, res: nat -> Residue)
    requires i == |cs|
    ensures CdWalk(v, t, cs[i..], i, res) == Some(t)
  {}

  lemma RowIs(a: array2<byte>, out: seq<CString>, i: nat)
    requires i < |out| <= a.Length0 && a.Length1 == 64 && Rows(a, out) && AllPlain(out)
    ensures Str(Row(a, i)) == out[i] && |out[i]| < 64
  {
    hide Row, Str;
    assert Plain(out[i]);
  }

  lemma RowOf(a: array2<byte>, out: seq<CString>, i: nat)
    requires i < |out| <= a.Length0 && Rows(a, out)
    ensures Str(Row(a, i)) == out[i]
  {
    hide Row, Str;
  }

  lemma ScanNameTurn(buf: Buffer, o: nat, ino: nat)
    ensures ScanName(buf, o, ino) ==
      if o >= BUFFER_SIZE || U16At(buf, o + 4) == 0 then None
      else if IsNameOf(buf, o, ino) then
        var name: Name := buf[o + 9..o + 9 + U16At(buf, o + 6)];
        Some(name)
      else ScanName(buf, o + U16At(buf, o + 4), ino)
  {
    hide U16At, U32At, IsNameOf;
  }

  lemma DotsByBytes(data: Buffer, at: nat, n: nat)
    requires 0 < n && at + n <= |data|
    ensures data[at..at + n] == DOT <==> n == 1 && data[at] == 46
    ensures data[at..at + n] == DOTDOT <==> n == 2 && data[at] == 46 && data[at + 1] == 46
  {
    assert data[at..at + n][0] == data[at];
    if n == 2 { assert data[at..at + n][1] == data[at + 1]; }
  }

  lemma PartsTurn(v: Volume, ino: nat, depth: nat, res: nat -> Residue)
    ensures PartsUp(v, ino, depth, res) ==
      if ino == 1 || depth >= MAX_DEPTH then []
      else
        var parent := GetParent(v, ino, res(2 * depth));
        if parent == ino then []
        else match DirBuffer(v, parent, res(2 * depth + 1))
          case None => []
          case Some(buf) =>
            match ScanName(buf, 0, ino)
            case None => []
            case Some(name) => [Str(name)] + PartsUp(v, parent, depth + 1, res)
  {
    hide GetParent, DirBuffer, ScanName, Str;
  }

  lemma RootShown(v: Volume, res: nat -> Residue)
    ensures Display(v, 1, res) == [SLASH]
  {}

  lemma JoinedNothing()
    ensures Joined([]) == [SLASH]
  {}

  /** `strcpy(path, "/")`. */
  method StrRoot(dest: array<byte>)
    requires dest.Length > 1
    modifies dest
    ensures Str(dest[..]) == [SLASH] && KeptBeyond(old(dest[..]), dest[..], 1)
  {
    hide Str;
    dest[0], dest[1] := SLASH, 0;
    assert dest[..][..1] == [SLASH];
    StrWhole(dest[..], 1);
  }

  lemma {:induction false} ReversedAt(s: seq<CString>, i: nat)
    requires i < |s|
    ensures |Reversed(s)| == |s| && Reversed(s)[|s| - 1 - i] == s[i]
  {
    if i > 0 { ReversedAt(s[1..], i - 1); } else if |s| > 1 { ReversedAt(s[1..], 0); }
  }

  lemma {:induction false} ReversedLength(s: seq<CString>)
    ensures |Reversed(s)| == |s|
  {
    if s != [] { ReversedLength(s[1..]); }
  }

  lemma {:induction false} JoinedGrows(names: seq<CString>, m: nat)
    requires m <= |names|
    ensures |Joined(names[..m])| <= |Joined(names)|
  {
    hide Appended;
    if m == |names| {
      assert names[..m] == names;
    } else {
      var rest := names[..|names| - 1];
      assert rest[..m] == names[..m];
      JoinedGrows(rest, m);
      AppendedLonger(Joined(rest), names[|names| - 1]);
    }
  }

  lemma AppendedLonger(p: CString, n: CString)
    ensures |p| <= |Appended(p, n)|
  {}

  /** Adding name `i`, counted from the innermost. */
  lemma JoinedTurn(parts: seq<CString>, i: nat)
    requires i < |parts|
    ensures var names := Reversed(parts);
      && |names| == |parts| && Joined(names[..|parts| - i]) == Appended(Joined(names[..|parts| - 1 - i]), parts[i])
      && |Joined(names[..|parts| - i])| <= |Joined(names)|
  {
    hide Appended, Reversed;
    ReversedAt(parts, i);
    var names, m := Reversed(parts), |parts| - i;
    assert names[..m][..m - 1] == names[..m - 1];
    JoinedGrows(names, m);
  }

  lemma KeptOn(was: seq<byte>, now: seq<byte>, then': seq<byte>)
    requires KeptBeyond(was, now, |Str(now)|) && KeptBeyond(now, then', |Str(then')|) && |Str(now)| <= |Str(then')|
    ensures KeptBeyond(was, then', |Str(then')|)
  {
    hide Str;
  }

  predicate NamesShort(names: seq<CString>) { forall i :: 0 <= i < |names| ==> |names[i]| < MAX_COMPONENT }

  lemma {:induction false} JoinedLength(names: seq<CString>)
    requires NamesShort(names)
    ensures |Joined(names)| <= 1 + MAX_COMPONENT * |names|
  {
    if names != [] {
      var rest := names[..|names| - 1];
      JoinedLength(rest);
      assert |names[|names| - 1]| < MAX_COMPONENT;
    }
  }

  lemma {:induction false} ReversedShort(s: seq<CString>)
    requires NamesShort(s)
    ensures NamesShort(Reversed(s))
  {
    if s != [] { ReversedShort(s[1..]); }
  }

  lemma FoundShort(buf: Buffer, o: nat, ino: nat)
    ensures ScanName(buf, o, ino).Some? ==> |ScanName(buf, o, ino).value| < MAX_COMPONENT
    decreases BUFFER_SIZE - o
  {
    hide U16At, U32At;
    if o < BUFFER_SIZE && U16At(buf, o + 4) != 0 { FoundShort(buf, o + U16At(buf, o + 4), ino); }
  }

  lemma {:induction false} PartsShort(v: Volume, ino: nat, depth: nat, res: nat -> Residue)
    ensures NamesShort(PartsUp(v, ino, depth, res)) && |PartsUp(v, ino, depth, res)| <= MAX_DEPTH
    ensures depth <= MAX_DEPTH ==> |PartsUp(v, ino, depth, res)| <= MAX_DEPTH - depth
    decreases MAX_DEPTH - depth
  {
    hide GetParent, DirBuffer, ScanName, Str;
    if ino != 1 && depth < MAX_DEPTH {
      var parent := GetParent(v, ino, res(2 * depth));
      if parent != ino && DirBuffer(v, parent, res(2 * depth + 1)).Some? {
        FoundShort(DirBuffer(v, parent, res(2 * depth + 1)).value, 0, ino);
        PartsShort(v, parent, depth + 1, res);
      }
    }
  }

  /** The printed path is never longer than thirty-one names of 62 bytes make it. */
  lemma PathIsShort(v: Volume, ino: nat, res: nat -> Residue)
    ensures |Display(v, ino, res)| < PATH_MEMORY
  {
    hide PartsUp, Joined, Reversed;
    var parts := PartsUp(v, ino, 0, res);
    PartsShort(v, ino, 0, res);
    ReversedLength(parts);
    ReversedShort(parts);
    JoinedLength(Reversed(parts));
  }

  lemma OneMorePart(x: seq<CString>, c: CString, y: seq<CString>)
    ensures (x + [c]) + y == x + ([c] + y)
  {}

  /** Between operations the shell can always read directories. */
  lemma ShellCallable(v: Volume, fs: FS, depth: map<nat, nat>)
    requires Sane(v, fs, depth)
    ensures Callable(v)
  {
    hide Sane, Geometry, ParentOK, TargetOK, Fit;
    forall k: nat | k <= 896 ensures ParentOK(v, DotRequest(k)) && TargetOK(v, DotRequest(k)) {
      AlwaysCallable(v, fs, depth, DotRequest(k));
    }
    AlwaysCallable(v, fs, depth, DotRequest(1));
  }
}
