/** Paths: splitting into components, walking the directories, and finding what was just created. */
module Paths {
  import opened Bytes
  import opened Handles
  import opened SelectBlock
  import opened FileIO
  import FlatFile
  import FileRuns
  import Volumes
  import opened DirectoryRecords
  import opened Directory

  const SLASH: byte := 47
  const ROOT_INO := 2
  const MAX_PATH_LEN := 1024
  const MAX_PATH_LEVELS := 100

  // ----- tokens

  /** The number of leading bytes that are not separators. */
  function Run(s: seq<byte>): (n: nat)
    ensures n <= |s| && (forall k | 0 <= k < n :: s[k] != SLASH) && (n < |s| ==> s[n] == SLASH)
  {
    if s == [] || s[0] == SLASH then 0 else 1 + Run(s[1..])
  }

  /** The components of a path: its longest runs without a separator. */
  function Tokens(s: seq<byte>): seq<seq<byte>>
    decreases |s|
  {
    if s == [] then []
    else if s[0] == SLASH then Tokens(s[1..])
    else [s[..Run(s)]] + Tokens(s[Run(s)..])
  }

  /** `strtok` on what is left of the string: the next component and what is left after it. */
  method Strtok(s: seq<byte>) returns (token: Option<seq<byte>>, rest: seq<byte>)
    ensures match token
            case Some(t) => Tokens(s) == [t] + Tokens(rest) && |rest| < |s|
            case None => Tokens(s) == []
  {
    hide Tokens;
    var i := 0;
    while i < |s| && s[i] == SLASH
      invariant i <= |s| && Tokens(s) == Tokens(s[i..])
    {
      SkipSeparator(s[i..]);
      assert s[i..][1..] == s[i + 1..];
      i := i + 1;
    }
    NoTokens();
    if i == |s| {
      return None, [];
    }
    var j := i;
    while j < |s| && s[j] != SLASH
      invariant i <= j <= |s| && forall k | i <= k < j :: s[k] != SLASH
    {
      j := j + 1;
    }
    FirstToken(s[i..], j - i);
    assert s[i..][..j - i] == s[i..j];
    token := Some(s[i..j]);
    if j == |s| {
      rest := [];
    } else {
      assert s[i..][j - i + 1..] == s[j + 1..];
      rest := s[j + 1..];
    }
  }

  lemma NoTokens()
    ensures Tokens([]) == []
  {
  }

  lemma SkipSeparator(s: seq<byte>)
    requires s != [] && s[0] == SLASH
    ensures Tokens(s) == Tokens(s[1..])
  {
  }

  lemma FirstToken(s: seq<byte>, n: nat)
    requires 0 < n <= |s| && (forall k | 0 <= k < n :: s[k] != SLASH) && (n < |s| ==> s[n] == SLASH)
    ensures Tokens(s) == [s[..n]] + Tokens(if n == |s| then [] else s[n + 1..])
  {
    RunIs(s, n);
    if n < |s| {
      assert s[n..][1..] == s[n + 1..];
    } else {
      assert s[n..] == [];
    }
  }

  lemma {:induction false} RunIs(s: seq<byte>, n: nat)
    requires n <= |s| && (forall k | 0 <= k < n :: s[k] != SLASH) && (n < |s| ==> s[n] == SLASH)
    ensures Run(s) == n
  {
    if n > 0 {
      RunIs(s[1..], n - 1);
    }
  }

  function Prefix<T>(s: seq<T>, n: nat): seq<T> {
    if |s| <= n then s else s[..n]
  }

  /** The components of the first 1023 bytes, at most 100 of them. */
  function Elements(path: seq<byte>): seq<seq<byte>> {
    Prefix(Tokens(Prefix(path, MAX_PATH_LEN - 1)), MAX_PATH_LEVELS)
  }

  method SplitPath(path: seq<byte>) returns (elements: seq<seq<byte>>)
    ensures elements == Elements(path)
  {
    var localPath := if |path| <= MAX_PATH_LEN - 1 then path else path[..MAX_PATH_LEN - 1];
    elements := [];
    var token, rest := Strtok(localPath);
    if token.None? {
      return;
    }
    elements := [token.value];
    while |elements| < MAX_PATH_LEVELS
      invariant 1 <= |elements| <= MAX_PATH_LEVELS && Tokens(localPath) == elements + Tokens(rest)
    {
      ghost var before := elements + Tokens(rest);
      token, rest := Strtok(rest);
      if token.None? {
        break;
      }
      assert before == elements + [token.value] + Tokens(rest);
      elements := elements + [token.value];
    }
  }

  // ----- looking up

  function CString(s: seq<byte>): seq<byte> {
    if s == [] || s[0] == 0 then [] else [s[0]] + CString(s[1..])
  }

  predicate NoNul(s: seq<byte>) {
    0 !in s
  }

  lemma {:induction false} PlainName(s: seq<byte>)
    requires NoNul(s)
    ensures CString(s) == s
  {
    if s != [] {
      PlainName(s[1..]);
    }
  }

  /** The inode of the first entry with the given name. */
  function FirstMatch(es: seq<Entry>, name: seq<byte>): Option<nat> {
    if es == [] then None else if CString(es[0].name) == name then Some(es[0].inode) else FirstMatch(es[1..], name)
  }

  /** The loop over the entries of an open directory. */
  method FindEntry(fe: FileEnt, ghost used: set<nat>, element: seq<byte>) returns (ino: Option<nat>)
    requires Open(fe, used) && fe.inode.size < 0x8000_0000 && fe.cursor == 0 && Chain(Dir(fe), 0, |Dir(fe)|)
    modifies fe`cursor, fe`fsDirty, fe`inode, fe`dirty, fe`lbaBlock, fe.buffer, fe.context, fe.context.sysbuf, fe.context.device
    ensures Open(fe, used) && fe.inode == old(fe.inode) && fe.Logical() == old(fe.Logical()) && Dir(fe) == old(Dir(fe))
    ensures fe.dirty ==> old(fe.dirty)
    ensures ino == FirstMatch(Listing(Dir(fe), 0, |Dir(fe)|), element)
  {
    hide Ready, Mapped, FileEnt.Logical, Dir, Chain, Advances, Listing, CString;
    ghost var c := Dir(fe);
    ghost var p := fe.cursor;
    var de := ReadDir(fe, used);
    while de.Some?
      invariant Open(fe, used) && fe.inode == old(fe.inode) && fe.Logical() == old(fe.Logical()) && Dir(fe) == c
      invariant fe.dirty ==> old(fe.dirty)
      invariant 0 <= p <= |c| && Chain(c, p, |c|)
      invariant FirstMatch(Listing(c, p, |c|), element) == FirstMatch(Listing(c, 0, |c|), element)
      invariant de.None? <==> p == |c|
      invariant de.Some? ==> Advances(c, p, de.value, fe.cursor)
      decreases |c| - p
    {
      AdvanceMoves(c, p, de.value, fe.cursor);
      assert Listing(c, p, |c|)[1..] == Listing(c, fe.cursor, |c|);
      if CString(de.value.name) == element {
        return Some(de.value.inode);
      }
      p := fe.cursor;
      de := ReadDir(fe, used);
    }
    AtEnd(c);
    ino := None;
  }

  /** The entries of every directory, by inode number. */
  type Tree = map<nat, seq<Entry>>

  function Resolve(dirs: Tree, ino: nat, names: seq<seq<byte>>): Option<nat>
    decreases |names|
  {
    if names == [] then Some(ino)
    else if ino !in dirs then None
    else
      var next := FirstMatch(dirs[ino], names[0]);
      if next.None? then None else Resolve(dirs, next.value, names[1..])
  }

  function Find(dirs: Tree, path: seq<byte>): Option<nat> {
    Resolve(dirs, ROOT_INO, Elements(path))
  }

  /** The path "/" leads to inode 2, and a name behind it to the first entry of that name there. */
  lemma RootPath(dirs: Tree, name: seq<byte>)
    requires name != [] && 47 !in name && |name| < 1023
    ensures Find(dirs, [47]) == Some(2)
    ensures Find(dirs, [47] + name) == if 2 in dirs then FirstMatch(dirs[2], name) else None
  {
    hide FirstMatch, Tokens;
    NoTokens();
    SkipSeparator([47]);
    assert [47][1..] == [];
    TokensSplit([], name);
    assert [] + [SLASH] + name == [47] + name && [] + [name] == [name];
    assert [name][1..] == [];
  }

  /** A lookup follows at most 100 components of the first 1023 bytes, and all of them if there are no more. */
  lemma ElementsCut(path: seq<byte>)
    ensures |Elements(path)| <= 100
    ensures |path| <= 1023 && |Tokens(path)| <= 100 ==> Elements(path) == Tokens(path)
    ensures |path| > 1023 ==> Elements(path) == Elements(path[..1023])
    ensures |path| <= 1023 && |Tokens(path)| > 100 ==> Elements(path) == Tokens(path)[..100]
  {
    hide Tokens;
  }

  lemma {:induction false} ResolveSnoc(dirs: Tree, ino: nat, names: seq<seq<byte>>, name: seq<byte>)
    ensures Resolve(dirs, ino, names + [name]) ==
            var d := Resolve(dirs, ino, names);
            if d.None? || d.value !in dirs then None else FirstMatch(dirs[d.value], name)
    decreases |names|
  {
    if names == [] {
      assert ([] + [name])[1..] == [];
    } else {
      assert (names + [name])[1..] == names[1..] + [name];
      if ino in dirs && FirstMatch(dirs[ino], names[0]).Some? {
        ResolveSnoc(dirs, FirstMatch(dirs[ino], names[0]).value, names[1..], name);
      }
    }
  }

  // ----- creating

  /** The last separator divides a path into a directory and a name. */
  method SplitLastSeparator(name: seq<byte>) returns (parts: Option<(seq<byte>, seq<byte>)>)
    ensures parts.None? <==> SLASH !in name
    ensures parts.Some? ==> name == parts.value.0 + [SLASH] + parts.value.1 && SLASH !in parts.value.1
  {
    var i := |name| - 1;
    while i > -1
      invariant -1 <= i < |name| && forall k | i < k < |name| :: name[k] != SLASH
    {
      if name[i] == SLASH {
        assert name == name[..i] + [SLASH] + name[i + 1..];
        return Some((name[..i], name[i + 1..]));
      }
      i := i - 1;
    }
    parts := None;
  }

  lemma TokenStep(s: seq<byte>)
    requires s != [] && s[0] != SLASH
    ensures Run(s) > 0 && Tokens(s) == [s[..Run(s)]] + Tokens(s[Run(s)..])
  {
  }

  lemma {:induction false} TokensConcat(a: seq<byte>, b: seq<byte>)
    ensures Tokens(a + [SLASH] + b) == Tokens(a) + Tokens(b)
    decreases |a|
  {
    hide Tokens;
    var s := a + [SLASH] + b;
    NoTokens();
    if a == [] {
      SkipSeparator(s);
      assert s[1..] == b;
    } else if a[0] == SLASH {
      SkipSeparator(s);
      SkipSeparator(a);
      assert s[1..] == a[1..] + [SLASH] + b;
      TokensConcat(a[1..], b);
    } else {
      var n := Run(a);
      RunIs(s, n);
      TokenStep(s);
      TokenStep(a);
      assert s[..n] == a[..n] && s[n..] == a[n..] + [SLASH] + b;
      TokensConcat(a[n..], b);
      assert [a[..n]] + (Tokens(a[n..]) + Tokens(b)) == [a[..n]] + Tokens(a[n..]) + Tokens(b);
    }
  }

  /** The components of a path are those before the last separator and then the name, if and only if there is a name. */
  lemma TokensSplit(dir: seq<byte>, name: seq<byte>)
    requires SLASH !in name
    ensures Tokens(dir + [SLASH] + name) == Tokens(dir) + (if name == [] then [] else [name])
    ensures Tokens(dir + [SLASH] + name) == Tokens(dir) + [name] <==> name != []
  {
    TokensConcat(dir, name);
    if name != [] {
      RunIs(name, |name|);
      assert name[..|name|] == name && name[|name|..] == [];
    }
  }

  lemma {:induction false} MatchAppended(es: seq<Entry>, e: Entry, name: seq<byte>)
    ensures FirstMatch(es + [e], name) ==
            if FirstMatch(es, name).Some? then FirstMatch(es, name)
            else if CString(e.name) == name then Some(e.inode) else None
  {
    if es == [] {
      assert ([] + [e])[1..] == [];
    } else {
      assert (es + [e])[1..] == es[1..] + [e];
      MatchAppended(es[1..], e, name);
    }
  }

  /** A lookup that succeeded gives the same after an entry is appended to some directory. */
  lemma {:induction false} AppendKeepsResolve(dirs: Tree, d: nat, e: Entry, ino: nat, names: seq<seq<byte>>)
    requires d in dirs && Resolve(dirs, ino, names).Some?
    ensures Resolve(dirs[d := dirs[d] + [e]], ino, names) == Resolve(dirs, ino, names)
    decreases |names|
  {
    if names != [] {
      MatchAppended(dirs[ino], e, names[0]);
      AppendKeepsResolve(dirs, d, e, FirstMatch(dirs[ino], names[0]).value, names[1..]);
    }
  }

  lemma {:induction false} ShortNames(c: seq<byte>, p: nat, end: nat)
    requires Chain(c, p, end)
    ensures forall e | e in Listing(c, p, end) :: |e.name| < 256
    decreases end - p
  {
    if p != end {
      ShortNames(c, p + HeaderAt(c, p).recLen, end);
    }
  }

  lemma {:induction false} CStringLength(s: seq<byte>)
    ensures |CString(s)| <= |s|
  {
    if s != [] {
      CStringLength(s[1..]);
    }
  }

  /** No entry has a name that its length byte cannot hold. */
  lemma {:induction false} LongNameMissing(es: seq<Entry>, name: seq<byte>)
    requires |name| >= 256 && forall e | e in es :: |e.name| < 256
    ensures FirstMatch(es, name) == None
  {
    if es != [] {
      CStringLength(es[0].name);
      LongNameMissing(es[1..], name);
    }
  }

  /** What a search by name finds after an append: an earlier entry that is left, else the new inode, but no long name. */
  lemma AppendedMatch(c: seq<byte>, bs: nat, inode: nat, name: seq<byte>, room: bool)
    requires DirOk(c, bs) && 0 < |c| && bs < 0x1_0000 && Live(inode) && 8 + |name| <= bs && NoNul(name)
    ensures var d := AppendedTo(c, bs, inode, name, room);
            Chain(d, 0, |d|) && FirstMatch(Listing(d, 0, |d|), name) ==
              var before := FirstMatch(Survivors(c, bs, name, room), name);
              if |name| >= 256 then None else if before.Some? then before else Some(inode)
  {
    hide DirOk, Splits, AppendedTo, Chain, Survivors, Listing;
    AppendedListing(c, bs, inode, name, room);
    var d := AppendedTo(c, bs, inode, name, room);
    if |name| >= 256 {
      ShortNames(d, 0, |d|);
      LongNameMissing(Listing(d, 0, |d|), name);
    } else {
      MatchAppended(Survivors(c, bs, name, room), Entry(inode, name), name);
      PlainName(name);
      assert name[..|name|] == name;
    }
  }

  /**
    Appending to an open directory and searching it from the start finds the new inode if and only if the length of the
    name fits into its byte and no entry of another inode that is left has the name.
   */
  method AppendThenFind(fe: FileEnt, ghost used: set<nat>, inode: nat, filename: seq<byte>)
    returns (r: int, found: Option<nat>, ghost used': set<nat>)
    requires FileRuns.InPlace(fe, used, fe.inode.size) && fe.inode.size < 0x8000_0000 - 512 * fe.context.lay.spb
    requires Live(inode) && 8 + |filename| <= 512 * fe.context.lay.spb && NoNul(filename)
    requires fe.inode.size > 0 && DirOk(Dir(fe), 512 * fe.context.lay.spb) && NextSlot(fe)
    modifies fe`cursor, fe`fsDirty, fe`inode, fe`dirty, fe`lbaBlock, fe.buffer, fe.context, fe.context.sysbuf, fe.context.device
    ensures FileRuns.InPlace(fe, used', fe.inode.size) && r == 0
    ensures found == Some(inode) <==>
            |filename| < 256
            && FirstMatch(Survivors(old(Dir(fe)), 512 * fe.context.lay.spb, filename, old(HasRoom(fe))), filename) in {None, Some(inode)}
  {
    hide Ready, FileIO.Mapped, FileEnt.Logical, DirOk, Chain, NextSlot, HasRoom, Survivors, AppendedTo, Listing, Dir, CString;
    ghost var c, room, bs := Dir(fe), HasRoom(fe), 512 * fe.context.lay.spb;
    BlockSizes(fe, used);
    WholeBlocks(c, bs);
    r, used' := AppendToDirectory(fe, used, inode, filename);
    AppendedMatch(c, bs, inode, filename, room);
    AppendedListing(c, bs, inode, filename, room);
    var at := SeekDir(fe, used', 0, FlatFile.SEEK_SET, 0, fe.inode.size);
    found := FindEntry(fe, used', filename);
  }

  lemma WholeBlocks(c: seq<byte>, bs: nat)
    requires DirOk(c, bs) && |c| > 0
    ensures Volumes.Mod(|c|, bs) == 0
  {
  }

  lemma KeepsFind(dirs: Tree, dirs': Tree, d: nat, e: Entry, path: seq<byte>)
    requires d in dirs && dirs' == dirs[d := dirs[d] + [e]] && Find(dirs, path).Some?
    ensures Find(dirs', path) == Find(dirs, path)
  {
    AppendKeepsResolve(dirs, d, e, ROOT_INO, Elements(path));
  }

  /**
    After an append to the directory `d` of a path that led nowhere: if there was room for the record, every lookup that
    succeeded gives the same, and the path leads to the new inode if and only if its name is shorter than 256 bytes. If
    there was none the same holds of the path as long as its directory is still found.
   */
  lemma CreateThenFind(dirs: Tree, dirs': Tree, dir: seq<byte>, name: seq<byte>, d: nat, ino: nat, c: seq<byte>, bs: nat, room: bool)
    requires SLASH !in name && NoNul(name) && |dir| + 1 + |name| < MAX_PATH_LEN && |Tokens(dir)| < MAX_PATH_LEVELS
    requires Find(dirs, dir) == Some(d) && d in dirs && Find(dirs, dir + [SLASH] + name) == None
    requires DirOk(c, bs) && 0 < |c| && bs < 0x1_0000 && Live(ino) && 8 + |name| <= bs
    requires Chain(c, 0, |c|) && dirs[d] == Listing(c, 0, |c|)
    requires dirs' == dirs[d := Survivors(c, bs, name, room) + [Stored(ino, name)]]
    ensures KeepsEntries(c, bs, name, room) ==>
              (forall p | Find(dirs, p).Some? :: Find(dirs', p) == Find(dirs, p))
              && (Find(dirs', dir + [SLASH] + name) == Some(ino) <==> |name| < 256)
    ensures Find(dirs', dir) == Some(d) ==> (Find(dirs', dir + [SLASH] + name) == Some(ino) <==> |name| < 256)
  {
    hide Find, FirstMatch, Tokens, DirOk, KeepsEntries, Chain, Listing, AppendedTo, Survivors, CString, NoNul;
    FindSplit(dirs', dir, name);
    FindSplit(dirs, dir, name);
    AppendedListing(c, bs, ino, name, room);
    AppendedMatch(c, bs, ino, name, room);
    LeftOver(c, bs, name, room);
    if KeepsEntries(c, bs, name, room) {
      forall p | Find(dirs, p).Some?
        ensures Find(dirs', p) == Find(dirs, p)
      {
        KeepsFind(dirs, dirs', d, Stored(ino, name), p);
      }
      assert Find(dirs', dir) == Some(d);
    }
  }

  lemma FindSplit(dirs: Tree, dir: seq<byte>, name: seq<byte>)
    requires SLASH !in name && |dir| + 1 + |name| < MAX_PATH_LEN && |Tokens(dir)| < MAX_PATH_LEVELS
    ensures Find(dirs, dir + [SLASH] + name) ==
            if name == [] then Find(dirs, dir)
            else if Find(dirs, dir).None? || Find(dirs, dir).value !in dirs then None
            else FirstMatch(dirs[Find(dirs, dir).value], name)
  {
    hide Resolve, FirstMatch, Tokens;
    TokensSplit(dir, name);
    assert Tokens(dir) + [] == Tokens(dir);
    ResolveSnoc(dirs, ROOT_INO, Tokens(dir), name);
  }

  /** What is left is a beginning of the entries: a name that was missing stays missing. */
  lemma LeftOver(c: seq<byte>, bs: nat, name: seq<byte>, room: bool)
    requires DirOk(c, bs) && 0 < |c|
    ensures Chain(c, 0, |c|)
    ensures KeepsEntries(c, bs, name, room) ==> Survivors(c, bs, name, room) == Listing(c, 0, |c|)
    ensures FirstMatch(Listing(c, 0, |c|), name) == None ==> FirstMatch(Survivors(c, bs, name, room), name) == None
  {
    hide Splits, FirstMatch, RecordAt, Blocks;
    BlocksLast(c, 0, |c|, bs);
    BlocksChain(c, 0, |c| - bs, bs);
    ChainConcat(c, 0, |c| - bs, |c|);
    PrefixMissing(Listing(c, 0, |c| - bs), Listing(c, |c| - bs, |c|), name);
  }

  lemma {:induction false} PrefixMissing(a: seq<Entry>, b: seq<Entry>, name: seq<byte>)
    ensures FirstMatch(a + b, name) == None ==> FirstMatch(a, name) == None
  {
    if a != [] {
      assert (a + b)[1..] == a[1..] + b;
      PrefixMissing(a[1..], b, name);
    }
  }

  lemma SeparatorUnique(path: seq<byte>, dir: seq<byte>, name: seq<byte>)
    requires path == dir + [SLASH] + name && SLASH !in name
    ensures forall a, b | path == a + [SLASH] + b && SLASH !in b :: a == dir && b == name
  {
    forall a, b | path == a + [SLASH] + b && SLASH !in b
      ensures a == dir && b == name
    {
      assert path[|a|] == SLASH && path[|dir|] == SLASH;
      assert a == path[..|a|] && dir == path[..|dir|];
      assert b == path[|a| + 1..] && name == path[|dir| + 1..];
    }
  }
}
