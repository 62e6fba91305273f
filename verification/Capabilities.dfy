/**
 Capability negotiation: the stub lists the operations its backend has
 (fs/stub_operations.c), the proxy installs a callback for every name it is told
 (proxyfs.c), and the two tables end up with the same operations.
 */
module Capabilities {
  import opened Words
  import opened Buffers
  import opened Wire
  import opened WireLaws
  import opened Framing
  import opened Remote
  import opened Sizes
  import opened Transparency
  import Calls

  type Name = seq<byte>

  /** The operations a table can have a pointer for. */
  datatype Op =
    | Init | GetAttr | Access | ReadLink | ReadDir | MkNod | MkDir | SymLink | Unlink | RmDir | Rename | Link
    | ChMod | ChOwn | Truncate | Create | Open | Read | Write | StatFs | Release | FSync | LSeek

  function NameOf(op: Op): string {
    match op
    case Init => "init"
    case GetAttr => "getattr"
    case Access => "access"
    case ReadLink => "readlink"
    case ReadDir => "readdir"
    case MkNod => "mknod"
    case MkDir => "mkdir"
    case SymLink => "symlink"
    case Unlink => "unlink"
    case RmDir => "rmdir"
    case Rename => "rename"
    case Link => "link"
    case ChMod => "chmod"
    case ChOwn => "chown"
    case Truncate => "truncate"
    case Create => "create"
    case Open => "open"
    case Read => "read"
    case Write => "write"
    case StatFs => "statfs"
    case Release => "release"
    case FSync => "fsync"
    case LSeek => "lseek"
  }

  /** A C string literal, without its terminator. */
  function Literal(s: string): (n: Name)
    ensures |n| == |s|
  {
    seq(|s|, i requires 0 <= i < |s| => (s[i] as int) % 256)
  }

  predicate Plain(s: string) {
    |s| <= 8 && forall k :: 0 <= k < |s| ==> 'a' <= s[k] <= 'z'
  }

  lemma NamesArePlain(op: Op)
    ensures Plain(NameOf(op))
  {
  }

  lemma LiteralsDiffer(s: string, t: string)
    requires Plain(s) && Plain(t)
    ensures Literal(s) == Literal(t) <==> s == t
  {
    if s != t && |s| == |t| {
      var k :| 0 <= k < |s| && s[k] != t[k];
      assert Literal(s)[k] != Literal(t)[k];
    }
  }

  /** Names tell operations apart; a length and two letters are enough. */
  lemma NamesDiffer(a: Op, b: Op)
    ensures NameOf(a) == NameOf(b) <==> a == b
  {
  }

  lemma NameIsUnique(a: Op, b: Op)
    ensures Literal(NameOf(a)) == Literal(NameOf(b)) <==> a == b
  {
    hide NameOf, Literal, Plain;
    NamesArePlain(a);
    NamesArePlain(b);
    LiteralsDiffer(NameOf(a), NameOf(b));
    NamesDiffer(a, b);
  }

  // ---------------------------------------------------------------- the stub's list

  // The order in which the stub asks for the backend's pointers.
  const LISTED: seq<Op> :=
    [GetAttr, Access, ReadLink, ReadDir, MkNod, MkDir, SymLink, Unlink, RmDir, Rename, Link,
     ChMod, ChOwn, Truncate, Create, Open, Read, Write, StatFs, Release, FSync, LSeek]

  /** The names of those asked for that the backend has. */
  function NamesOf(asked: seq<Op>, operations: set<Op>): seq<Name> {
    if asked == [] then []
    else
      var before := NamesOf(asked[..|asked| - 1], operations);
      var op := asked[|asked| - 1];
      if op in operations then before + [Literal(NameOf(op))] else before
  }

  lemma NamesOfMore(asked: seq<Op>, op: Op, operations: set<Op>)
    ensures NamesOf(asked + [op], operations)
         == NamesOf(asked, operations) + if op in operations then [Literal(NameOf(op))] else []
  {
    assert (asked + [op])[..|asked|] == asked;
  }

  /** The names of `done` have been listed. */
  ghost predicate Listing(list: NameList, done: seq<Op>, operations: set<Op>)
    reads list, list.entries
  {
    list.Valid() && list.Contents() == NamesOf(done, operations)
  }

  /** Lists a name if its pointer is set. */
  method AddIfSet(list: NameList, pointer: bool, value: string, ghost operations: set<Op>, ghost op: Op,
                  ghost done: seq<Op>)
    returns (ghost more: seq<Op>)
    requires Listing(list, done, operations)
    requires pointer == (op in operations) && value == NameOf(op)
    modifies list, list.entries
    ensures list.entries == old(list.entries) || fresh(list.entries)
    ensures more == done + [op] && Listing(list, more, operations)
  {
    hide NamesOf, Literal, NameOf;
    NamesOfMore(done, op, operations);
    if pointer {
      var _ := list.Add(Literal(value));
    }
    more := done + [op];
  }

  method ListA(list: NameList, operations: set<Op>, ghost before: seq<Op>) returns (ghost done: seq<Op>)
    requires Listing(list, before, operations)
    modifies list, list.entries
    ensures list.entries == old(list.entries) || fresh(list.entries)
    ensures done == before + [GetAttr, Access, ReadLink, ReadDir, MkNod, MkDir] && Listing(list, done, operations)
  {
    hide Listing;
    done := before;
    done := AddIfSet(list, GetAttr in operations, "getattr", operations, GetAttr, done);
    done := AddIfSet(list, Access in operations, "access", operations, Access, done);
    done := AddIfSet(list, ReadLink in operations, "readlink", operations, ReadLink, done);
    done := AddIfSet(list, ReadDir in operations, "readdir", operations, ReadDir, done);
    done := AddIfSet(list, MkNod in operations, "mknod", operations, MkNod, done);
    done := AddIfSet(list, MkDir in operations, "mkdir", operations, MkDir, done);
  }

  method ListB(list: NameList, operations: set<Op>, ghost before: seq<Op>) returns (ghost done: seq<Op>)
    requires Listing(list, before, operations)
    modifies list, list.entries
    ensures list.entries == old(list.entries) || fresh(list.entries)
    ensures done == before + [SymLink, Unlink, RmDir, Rename, Link] && Listing(list, done, operations)
  {
    hide Listing;
    done := before;
    done := AddIfSet(list, SymLink in operations, "symlink", operations, SymLink, done);
    done := AddIfSet(list, Unlink in operations, "unlink", operations, Unlink, done);
    done := AddIfSet(list, RmDir in operations, "rmdir", operations, RmDir, done);
    done := AddIfSet(list, Rename in operations, "rename", operations, Rename, done);
    done := AddIfSet(list, Link in operations, "link", operations, Link, done);
  }

  method ListC(list: NameList, operations: set<Op>, ghost before: seq<Op>) returns (ghost done: seq<Op>)
    requires Listing(list, before, operations)
    modifies list, list.entries
    ensures list.entries == old(list.entries) || fresh(list.entries)
    ensures done == before + [ChMod, ChOwn, Truncate, Create] && Listing(list, done, operations)
  {
    hide Listing;
    done := before;
    done := AddIfSet(list, ChMod in operations, "chmod", operations, ChMod, done);
    done := AddIfSet(list, ChOwn in operations, "chown", operations, ChOwn, done);
    done := AddIfSet(list, Truncate in operations, "truncate", operations, Truncate, done);
    done := AddIfSet(list, Create in operations, "create", operations, Create, done);
  }

  method ListD(list: NameList, operations: set<Op>, ghost before: seq<Op>) returns (ghost done: seq<Op>)
    requires Listing(list, before, operations)
    modifies list, list.entries
    ensures list.entries == old(list.entries) || fresh(list.entries)
    ensures done == before + [Open, Read, Write, StatFs] && Listing(list, done, operations)
  {
    hide Listing;
    done := before;
    done := AddIfSet(list, Open in operations, "open", operations, Open, done);
    done := AddIfSet(list, Read in operations, "read", operations, Read, done);
    done := AddIfSet(list, Write in operations, "write", operations, Write, done);
    done := AddIfSet(list, StatFs in operations, "statfs", operations, StatFs, done);
  }

  method ListE(list: NameList, operations: set<Op>, ghost before: seq<Op>) returns (ghost done: seq<Op>)
    requires Listing(list, before, operations)
    modifies list, list.entries
    ensures list.entries == old(list.entries) || fresh(list.entries)
    ensures done == before + [Release, FSync, LSeek] && Listing(list, done, operations)
  {
    hide Listing;
    done := before;
    done := AddIfSet(list, Release in operations, "release", operations, Release, done);
    done := AddIfSet(list, FSync in operations, "fsync", operations, FSync, done);
    done := AddIfSet(list, LSeek in operations, "lseek", operations, LSeek, done);
  }

  lemma StartsListing(list: NameList, operations: set<Op>)
    requires list.Valid() && list.Contents() == []
    ensures Listing(list, [], operations)
  {
  }

  lemma EndsListing(list: NameList, done: seq<Op>, operations: set<Op>)
    requires Listing(list, done, operations)
    ensures list.Valid() && list.Contents() == NamesOf(done, operations)
  {
  }

  /** The list the stub replies with. */
  method ListOperations(operations: set<Op>) returns (list: NameList)
    ensures fresh(list) && fresh(list.entries) && list.Valid() && list.Contents() == NamesOf(LISTED, operations)
  {
    hide Listing, NamesOf, NameList.Contents, NameList.Valid;
    list := new NameList();
    StartsListing(list, operations);
    ghost var done := ListA(list, operations, []);
    done := ListB(list, operations, done);
    done := ListC(list, operations, done);
    done := ListD(list, operations, done);
    done := ListE(list, operations, done);
    assert done == LISTED;
    EndsListing(list, LISTED, operations);
  }

  // ---------------------------------------------------------------- the proxy's table

  /** Which callback each field of the table holds; a field without one is NULL. */
  type Table = map<Op, Op>

  /** What being told one name does to the table: a name nobody has is ignored. */
  ghost function Installed(table: Table, name: Name): Table {
    if op: Op :| name == Literal(NameOf(op)) then table[op := op] else table
  }

  lemma InstalledOp(table: Table, op: Op)
    ensures Installed(table, Literal(NameOf(op))) == table[op := op]
  {
    hide NameOf, Literal;
    var name := Literal(NameOf(op));
    var chosen: Op :| name == Literal(NameOf(chosen)) && Installed(table, name) == table[chosen := chosen];
    NameIsUnique(op, chosen);
  }

  /** Every name, spelled out, installs the callback of its own field. */
  lemma NamesInstall(table: Table)
    ensures Installed(table, Literal("init")) == table[Init := Init]
    ensures Installed(table, Literal("getattr")) == table[GetAttr := GetAttr]
    ensures Installed(table, Literal("access")) == table[Access := Access]
    ensures Installed(table, Literal("readlink")) == table[ReadLink := ReadLink]
    ensures Installed(table, Literal("readdir")) == table[ReadDir := ReadDir]
    ensures Installed(table, Literal("mknod")) == table[MkNod := MkNod]
  {
    hide Installed, Literal;
    InstalledOp(table, Init);
    InstalledOp(table, GetAttr);
    InstalledOp(table, Access);
    InstalledOp(table, ReadLink);
    InstalledOp(table, ReadDir);
    InstalledOp(table, MkNod);
  }

  lemma MoreNamesInstall(table: Table)
    ensures Installed(table, Literal("mkdir")) == table[MkDir := MkDir]
    ensures Installed(table, Literal("symlink")) == table[SymLink := SymLink]
    ensures Installed(table, Literal("unlink")) == table[Unlink := Unlink]
    ensures Installed(table, Literal("rmdir")) == table[RmDir := RmDir]
    ensures Installed(table, Literal("rename")) == table[Rename := Rename]
    ensures Installed(table, Literal("link")) == table[Link := Link]
  {
    hide Installed, Literal;
    InstalledOp(table, MkDir);
    InstalledOp(table, SymLink);
    InstalledOp(table, Unlink);
    InstalledOp(table, RmDir);
    InstalledOp(table, Rename);
    InstalledOp(table, Link);
  }

  lemma LaterNamesInstall(table: Table)
    ensures Installed(table, Literal("chmod")) == table[ChMod := ChMod]
    ensures Installed(table, Literal("chown")) == table[ChOwn := ChOwn]
    ensures Installed(table, Literal("truncate")) == table[Truncate := Truncate]
    ensures Installed(table, Literal("create")) == table[Create := Create]
    ensures Installed(table, Literal("open")) == table[Open := Open]
    ensures Installed(table, Literal("read")) == table[Read := Read]
  {
    hide Installed, Literal;
    InstalledOp(table, ChMod);
    InstalledOp(table, ChOwn);
    InstalledOp(table, Truncate);
    InstalledOp(table, Create);
    InstalledOp(table, Open);
    InstalledOp(table, Read);
  }

  lemma LastNamesInstall(table: Table)
    ensures Installed(table, Literal("write")) == table[Write := Write]
    ensures Installed(table, Literal("statfs")) == table[StatFs := StatFs]
    ensures Installed(table, Literal("release")) == table[Release := Release]
    ensures Installed(table, Literal("fsync")) == table[FSync := FSync]
    ensures Installed(table, Literal("lseek")) == table[LSeek := LSeek]
  {
    hide Installed, Literal;
    InstalledOp(table, Write);
    InstalledOp(table, StatFs);
    InstalledOp(table, Release);
    InstalledOp(table, FSync);
    InstalledOp(table, LSeek);
  }

  // The order in which the proxy compares a name with those it knows.
  function Place(op: Op): (place: nat)
    ensures place < 23
  {
    match op
    case Init => 0
    case GetAttr => 1
    case Access => 2
    case ReadLink => 3
    case ReadDir => 4
    case MkNod => 5
    case MkDir => 6
    case Unlink => 7
    case RmDir => 8
    case SymLink => 9
    case Rename => 10
    case Link => 11
    case ChMod => 12
    case ChOwn => 13
    case Truncate => 14
    case Create => 15
    case Open => 16
    case Read => 17
    case Write => 18
    case StatFs => 19
    case Release => 20
    case FSync => 21
    case LSeek => 22
  }

  /** The name is none of those compared at the places from `first` to `last`. */
  ghost predicate Unlike(name: Name, first: nat, last: nat) {
    forall op: Op :: first <= Place(op) < last ==> name != Literal(NameOf(op))
  }

  lemma InstalledNothing(table: Table, name: Name)
    requires Unlike(name, 0, 8) && Unlike(name, 8, 16) && Unlike(name, 16, 23)
    ensures Installed(table, name) == table
  {
  }

  /** libfuse's table, as the proxy fills it. */
  class FuseOperations {
    var callbacks: Table

    constructor ()
      ensures callbacks == map[]
    {
      callbacks := map[];
    }

    /** Installs the callback for one name. */
    method SetOperation(name: Name)
      modifies this
      ensures callbacks == Installed(old(callbacks), name)
    {
      hide Installed, Literal, NameOf, Place;
      var found := SetFirst(name);
      if !found {
        found := SetNext(name);
        if !found {
          found := SetRest(name);
          if !found {
            InstalledNothing(callbacks, name);
          }
        }
      }
    }

    method SetFirst(name: Name) returns (found: bool)
      modifies this
      ensures found ==> callbacks == Installed(old(callbacks), name)
      ensures !found ==> callbacks == old(callbacks) && Unlike(name, 0, 8)
    {
      hide Installed, Literal;
      found := true;
      if name == Literal("init") {
        InstalledOp(callbacks, Init);
        callbacks := callbacks[Init := Init];
      } else if name == Literal("getattr") {
        InstalledOp(callbacks, GetAttr);
        callbacks := callbacks[GetAttr := GetAttr];
      } else if name == Literal("access") {
        InstalledOp(callbacks, Access);
        callbacks := callbacks[Access := Access];
      } else if name == Literal("readlink") {
        InstalledOp(callbacks, ReadLink);
        callbacks := callbacks[ReadLink := ReadLink];
      } else if name == Literal("readdir") {
        InstalledOp(callbacks, ReadDir);
        callbacks := callbacks[ReadDir := ReadDir];
      } else if name == Literal("mknod") {
        InstalledOp(callbacks, MkNod);
        callbacks := callbacks[MkNod := MkNod];
      } else if name == Literal("mkdir") {
        InstalledOp(callbacks, MkDir);
        callbacks := callbacks[MkDir := MkDir];
      } else if name == Literal("unlink") {
        InstalledOp(callbacks, Unlink);
        callbacks := callbacks[Unlink := Unlink];
      } else {
        found := false;
      }
    }

    method SetNext(name: Name) returns (found: bool)
      modifies this
      ensures found ==> callbacks == Installed(old(callbacks), name)
      ensures !found ==> callbacks == old(callbacks) && Unlike(name, 8, 16)
    {
      hide Installed, Literal;
      found := true;
      if name == Literal("rmdir") {
        InstalledOp(callbacks, RmDir);
        callbacks := callbacks[RmDir := RmDir];
      } else if name == Literal("symlink") {
        InstalledOp(callbacks, SymLink);
        callbacks := callbacks[SymLink := SymLink];
      } else if name == Literal("rename") {
        InstalledOp(callbacks, Rename);
        callbacks := callbacks[Rename := Rename];
      } else if name == Literal("link") {
        InstalledOp(callbacks, Link);
        callbacks := callbacks[Link := Link];
      } else if name == Literal("chmod") {
        InstalledOp(callbacks, ChMod);
        callbacks := callbacks[ChMod := ChMod];
      } else if name == Literal("chown") {
        InstalledOp(callbacks, ChOwn);
        callbacks := callbacks[ChOwn := ChOwn];
      } else if name == Literal("truncate") {
        InstalledOp(callbacks, Truncate);
        callbacks := callbacks[Truncate := Truncate];
      } else if name == Literal("create") {
        InstalledOp(callbacks, Create);
        callbacks := callbacks[Create := Create];
      } else {
        found := false;
      }
    }

    method SetRest(name: Name) returns (found: bool)
      modifies this
      ensures found ==> callbacks == Installed(old(callbacks), name)
      ensures !found ==> callbacks == old(callbacks) && Unlike(name, 16, 23)
    {
      hide Installed, Literal;
      found := true;
      if name == Literal("open") {
        InstalledOp(callbacks, Open);
        callbacks := callbacks[Open := Open];
      } else if name == Literal("read") {
        InstalledOp(callbacks, Read);
        callbacks := callbacks[Read := Read];
      } else if name == Literal("write") {
        InstalledOp(callbacks, Write);
        callbacks := callbacks[Write := Write];
      } else if name == Literal("statfs") {
        InstalledOp(callbacks, StatFs);
        callbacks := callbacks[StatFs := StatFs];
      } else if name == Literal("release") {
        InstalledOp(callbacks, Release);
        callbacks := callbacks[Release := Release];
      } else if name == Literal("fsync") {
        InstalledOp(callbacks, FSync);
        callbacks := callbacks[FSync := FSync];
      } else if name == Literal("lseek") {
        InstalledOp(callbacks, LSeek);
        callbacks := callbacks[LSeek := LSeek];
      } else {
        found := false;
      }
    }

    /** Clears the table and installs what the provider listed, one name at a time. */
    method Install(listed: seq<Name>)
      modifies this
      ensures callbacks == Negotiated(map[], listed)
    {
      hide Installed;
      callbacks := map[];
      var i := 0;
      assert listed[0..] == listed;
      while i < |listed|
        invariant i <= |listed|
        invariant Negotiated(callbacks, listed[i..]) == Negotiated(map[], listed)
      {
        assert listed[i..][1..] == listed[i + 1..];
        SetOperation(listed[i]);
        i := i + 1;
      }
    }
  }

  /** The table after the proxy has been told the names, in order. */
  ghost function Negotiated(table: Table, listed: seq<Name>): Table
    decreases |listed|
  {
    if listed == [] then table else Negotiated(Installed(table, listed[0]), listed[1..])
  }

  lemma {:induction false} NegotiatedLast(table: Table, listed: seq<Name>, last: Name)
    ensures Negotiated(table, listed + [last]) == Installed(Negotiated(table, listed), last)
    decreases |listed|
  {
    if listed == [] {
      assert (listed + [last])[1..] == [];
    } else {
      assert (listed + [last])[1..] == listed[1..] + [last];
      NegotiatedLast(Installed(table, listed[0]), listed[1..], last);
    }
  }

  /** The table in which exactly these operations have their own callback. */
  ghost function Exactly(operations: set<Op>): Table {
    map op | op in operations :: op
  }

  lemma {:induction false} NegotiatedSoFar(asked: seq<Op>, operations: set<Op>)
    ensures Negotiated(map[], NamesOf(asked, operations)) == Exactly(set op | op in asked && op in operations)
    decreases |asked|
  {
    hide Installed;
    if asked != [] {
      var before, op := asked[..|asked| - 1], asked[|asked| - 1];
      assert asked == before + [op];
      NegotiatedSoFar(before, operations);
      if op in operations {
        NegotiatedLast(map[], NamesOf(before, operations), Literal(NameOf(op)));
        InstalledOp(Negotiated(map[], NamesOf(before, operations)), op);
      }
    }
  }

  lemma AllListed(op: Op)
    ensures op in LISTED <==> op != Init
  {
    var k := match op
      case Init => -1 case GetAttr => 0 case Access => 1 case ReadLink => 2 case ReadDir => 3 case MkNod => 4
      case MkDir => 5 case SymLink => 6 case Unlink => 7 case RmDir => 8 case Rename => 9 case Link => 10
      case ChMod => 11 case ChOwn => 12 case Truncate => 13 case Create => 14 case Open => 15 case Read => 16
      case Write => 17 case StatFs => 18 case Release => 19 case FSync => 20 case LSeek => 21;
    assert k >= 0 ==> LISTED[k] == op;
  }

  /** Capability negotiation is exact: the table ends with precisely the operations the
      backend has, each with its own callback. `init` is the exception: a backend has
      it, but it is never listed and so never installed. */
  lemma NegotiationIsExact(operations: set<Op>)
    ensures Negotiated(map[], NamesOf(LISTED, operations)) == Exactly(operations - {Init})
  {
    NegotiatedSoFar(LISTED, operations);
    forall op: Op
      ensures op in LISTED && op in operations <==> op in operations - {Init}
    {
      AllListed(op);
    }
    hide NamesOf, Negotiated;
    assert (set op | op in LISTED && op in operations) == operations - {Init};
  }

  // ---------------------------------------------------------------- through the stack

  ghost predicate ShortTexts(names: seq<Name>) {
    forall k :: 0 <= k < |names| ==> TextOk(names[k]) && |names[k]| <= 8
  }

  lemma LiteralIsShort(op: Op)
    ensures ShortTexts([Literal(NameOf(op))])
  {
    NamesArePlain(op);
    hide NameOf;
  }

  lemma {:induction false} ListedNamesAreShort(asked: seq<Op>, operations: set<Op>)
    ensures ShortTexts(NamesOf(asked, operations)) && |NamesOf(asked, operations)| <= |asked|
    decreases |asked|
  {
    hide NameOf, Literal;
    if asked != [] {
      ListedNamesAreShort(asked[..|asked| - 1], operations);
      LiteralIsShort(asked[|asked| - 1]);
    }
  }

  lemma {:induction false} ShortTextsFit(names: seq<Name>)
    requires ShortTexts(names)
    ensures NamesSize(names) <= 13 * |names|
    decreases |names|
  {
    if names != [] {
      ShortTextsFit(names[1..]);
    }
  }

  lemma ShortNamesOk(names: seq<Name>)
    requires ShortTexts(names) && |names| <= 22
    ensures NamesOk(names)
  {
  }

  /** The whole negotiation over any pipe: the names travel in a reply, are handed to
      the callback in order, and leave the proxy with the backend's operations. */
  lemma NegotiationThroughTheStack<S(!new)>(operations: set<Op>, apply: (S, Calls.Call) -> (S, Calls.Answer), s: S,
                                            junk: Calls.Junk, w: Weather, stale: seq<byte>)
    requires WellBehaved(apply) && TextOk(junk.text) && Fair(w)
    ensures NamesOk(NamesOf(LISTED, operations))
    ensures var names := NamesOf(LISTED, operations);
            var trip := RemoteCall(names, apply, s, junk, Calls.ListOperations, List([]), w, stale);
            && trip.state == s && trip.status == RPC_GOOD && trip.result == 0 && trip.out.List?
            && Negotiated(map[], trip.out.names) == Exactly(operations - {Init})
  {
    hide NamesOf, Negotiated, RemoteCall, ShortTexts, NamesSize, Robust, DirectOut;
    ListedNamesAreShort(LISTED, operations);
    ShortNamesOk(NamesOf(LISTED, operations));
    ShortTextsFit(NamesOf(LISTED, operations));
    RemoteCallIsTransparent(NamesOf(LISTED, operations), apply, s, junk, Calls.ListOperations, List([]), w, stale,
                            s, Calls.Answer(0, Calls.Offered(NamesOf(LISTED, operations))));
    NegotiationIsExact(operations);
    assert [] + NamesOf(LISTED, operations) == NamesOf(LISTED, operations);
  }
}
