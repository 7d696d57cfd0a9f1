/**
The inode/dentry cache as a value: the records the C code links together, the invariant every
locked region keeps, and the single list and counter updates as functions on that value.

Pointers are keys of the two stores `inodes` and `dentries`. Freeing an object removes its key, so
every access to a freed object would be a failed proof.
*/
module InodeState {
  import opened Seqs

  const HASHSIZE: nat := 14057

  type InodePtr = nat
  type DentryPtr = nat

  /** `hashed` says that the record's own hash link is off its self-loop. */
  datatype Inode = Inode(
    ino: nat, mode: nat, nlookup: nat, generation: nat, ref: nat, hashed: bool,
    dentryList: seq<DentryPtr>, childList: seq<DentryPtr>)

  datatype Dentry = Dentry(inode: InodePtr, parent: InodePtr, name: string, hashed: bool)

  datatype Table = Table(
    inodes: map<InodePtr, Inode>, dentries: map<DentryPtr, Dentry>,
    inodeHash: seq<seq<InodePtr>>, nameHash: seq<seq<DentryPtr>>,
    active: seq<InodePtr>, activeSize: int,
    lru: seq<InodePtr>, lruSize: int,
    purge: seq<InodePtr>, purgeSize: int,
    lruLimit: nat, root: InodePtr)

  // ---------------------------------------------------------------- hash functions

  /** The value of a C `int` after 32-bit wrap-around. */
  function Wrap32(x: int): int {
    (x + 0x8000_0000) % 0x1_0000_0000 - 0x8000_0000
  }

  /** A byte of a C string as a signed `char`. */
  function SignedChar(c: char): int {
    (c as int + 128) % 256 - 128
  }

  function StringHash(hash: int, name: string): int
    decreases |name|
  {
    if name == "" then hash
    else StringHash(Wrap32(Wrap32(hash * 32) - hash + SignedChar(name[0])), name[1..])
  }

  function HashName(par: nat, name: string): (h: nat)
    ensures h < HASHSIZE
  {
    var hash := if name == "" then 0 else StringHash(SignedChar(name[0]), name[1..]);
    ((hash + par) % 0x1_0000_0000_0000_0000) % HASHSIZE
  }

  function HashInode(ino: nat): (h: nat)
    ensures h < HASHSIZE
  {
    ino % HASHSIZE
  }

  // ---------------------------------------------------------------- invariant

  /** Each live inode is on exactly one list; `ref > 0` exactly on the active list. */
  ghost predicate ListsOk(t: Table) {
    && NoDup(t.active) && NoDup(t.lru) && NoDup(t.purge)
    && (forall i :: i in t.active ==> i in t.inodes && t.inodes[i].ref > 0)
    && (forall i :: i in t.lru ==> i in t.inodes && t.inodes[i].ref == 0 && t.inodes[i].hashed)
    && (forall i :: i in t.purge ==> i in t.inodes && t.inodes[i].ref == 0 && !t.inodes[i].hashed)
    && (forall i :: i in t.inodes ==> i in t.active || i in t.lru || i in t.purge)
    && t.activeSize == |t.active| && t.lruSize == |t.lru| && t.purgeSize == |t.purge|
  }

  /** `dentry_list` and `child_list` hold exactly the dentries that point back. */
  ghost predicate LinksOk(t: Table) {
    && (forall i :: i in t.inodes ==> NoDup(t.inodes[i].dentryList) && NoDup(t.inodes[i].childList))
    && (forall i, d {:trigger d in t.inodes[i].dentryList} :: i in t.inodes && d in t.inodes[i].dentryList ==>
          d in t.dentries && t.dentries[d].inode == i)
    && (forall i, d {:trigger d in t.inodes[i].childList} :: i in t.inodes && d in t.inodes[i].childList ==>
          d in t.dentries && t.dentries[d].parent == i)
    && (forall d :: d in t.dentries ==>
          && t.dentries[d].inode in t.inodes && d in t.inodes[t.dentries[d].inode].dentryList
          && t.dentries[d].parent in t.inodes && d in t.inodes[t.dentries[d].parent].childList)
  }

  /** Every reference is held by a caller or by a child dentry; number 1 may leak some. */
  ghost predicate Accounts(t: Table, held: map<InodePtr, nat>) {
    && held.Keys == t.inodes.Keys
    && (forall i :: i in t.inodes ==>
          && t.inodes[i].ref >= held[i] + |t.inodes[i].childList|
          && (t.inodes[i].ino != 1 ==> t.inodes[i].ref == held[i] + |t.inodes[i].childList|))
  }

  predicate SameNumber(a: Inode, b: Inode) {
    a.hashed && b.hashed && a.ino == b.ino
  }

  /** At most one hashed inode per number, each in the bucket of its number. */
  ghost predicate NumbersOk(t: Table) {
    && |t.inodeHash| == HASHSIZE
    && (forall b :: 0 <= b < HASHSIZE ==> NoDup(t.inodeHash[b]))
    && (forall b, i {:trigger i in t.inodeHash[b]} :: 0 <= b < HASHSIZE && i in t.inodeHash[b] ==>
          i in t.inodes && t.inodes[i].hashed && HashInode(t.inodes[i].ino) == b)
    && (forall i :: i in t.inodes && t.inodes[i].hashed ==>
          t.inodes[i].ino != 0 && i in t.inodeHash[HashInode(t.inodes[i].ino)])
    && (forall i, j {:trigger SameNumber(t.inodes[i], t.inodes[j])} ::
          i in t.inodes && j in t.inodes && SameNumber(t.inodes[i], t.inodes[j]) ==> i == j)
  }

  predicate SameName(a: Dentry, b: Dentry) {
    a.parent == b.parent && a.name == b.name
  }

  /** Two dentries of one name that may not both exist: both hashed, or both of one inode. */
  predicate Clash(a: Dentry, b: Dentry) {
    SameName(a, b) && ((a.hashed && b.hashed) || a.inode == b.inode)
  }

  /**
  At most one hashed dentry per (parent, name), each inode at most once under a name, and every
  parent is hashed. `ex` names inodes whose own hashing is suspended by the operation at work.
  */
  ghost predicate NamesOk(t: Table, ex: set<InodePtr>) {
    && (forall d :: d in t.dentries ==>
          t.dentries[d].parent in t.inodes && (t.inodes[t.dentries[d].parent].hashed || t.dentries[d].parent in ex))
    && (forall d, e {:trigger Clash(t.dentries[d], t.dentries[e])} ::
          d in t.dentries && e in t.dentries && Clash(t.dentries[d], t.dentries[e]) ==> d == e)
  }

  function NameBucket(t: Table, d: DentryPtr): (b: nat)
    requires d in t.dentries && t.dentries[d].parent in t.inodes
    ensures b < HASHSIZE
  {
    HashName(t.inodes[t.dentries[d].parent].ino, t.dentries[d].name)
  }

  /** A name bucket holds exactly the hashed dentries that compute it. */
  ghost predicate NameBucketsOk(t: Table)
  {
    && |t.nameHash| == HASHSIZE
    && (forall d :: d in t.dentries ==> t.dentries[d].parent in t.inodes)
    && (forall b :: 0 <= b < HASHSIZE ==> NoDup(t.nameHash[b]))
    && (forall b, d {:trigger d in t.nameHash[b]} :: 0 <= b < HASHSIZE && d in t.nameHash[b] ==>
          d in t.dentries && t.dentries[d].hashed && NameBucket(t, d) == b)
    && (forall d :: d in t.dentries && t.dentries[d].hashed ==> d in t.nameHash[NameBucket(t, d)])
  }

  /** Hashed dentries belong to hashed inodes, and a purged inode has no dentries left. */
  ghost predicate Tidy(t: Table, ex: set<InodePtr>) {
    && (forall d :: d in t.dentries && t.dentries[d].hashed ==>
          t.dentries[d].inode in t.inodes && (t.inodes[t.dentries[d].inode].hashed || t.dentries[d].inode in ex))
    && (forall i :: i in t.purge && i in t.inodes ==> t.inodes[i].dentryList == [] || i in ex)
  }

  ghost predicate Graph(t: Table, ex: set<InodePtr>) {
    LinksOk(t) && NumbersOk(t) && NamesOk(t, ex) && NameBucketsOk(t)
  }

  ghost predicate Inv(t: Table, held: map<InodePtr, nat>, ex: set<InodePtr>) {
    Graph(t, ex) && ListsOk(t) && Accounts(t, held) && Tidy(t, ex)
  }

  // ---------------------------------------------------------------- steps

  /** `list_del` on the node that links an inode into active, lru or purge. */
  function Unlisted(t: Table, i: InodePtr): Table {
    t.(active := Remove(t.active, i), lru := Remove(t.lru, i), purge := Remove(t.purge, i))
  }

  function RefStep(t: Table, i: InodePtr): (r: Table)
    requires i in t.inodes
  {
    var u := if t.inodes[i].ref > 0 then t else
      var v := Unlisted(t, i);
      v.(lruSize := t.lruSize - 1, active := [i] + v.active, activeSize := t.activeSize + 1);
    u.(inodes := t.inodes[i := t.inodes[i].(ref := t.inodes[i].ref + 1)])
  }

  /** The counter side of `__inode_unref` for a number other than 1. */
  function UnrefDec(t: Table, i: InodePtr): Table
    requires i in t.inodes && t.inodes[i].ref > 0
  {
    var u := t.(inodes := t.inodes[i := t.inodes[i].(ref := t.inodes[i].ref - 1)]);
    if t.inodes[i].ref > 1 then u else u.(activeSize := t.activeSize - 1)
  }

  function MoveToLru(t: Table, i: InodePtr): Table {
    var u := Unlisted(t, i);
    u.(lru := u.lru + [i], lruSize := t.lruSize + 1)
  }

  function InodeUnhash(t: Table, i: InodePtr): Table
    requires i in t.inodes && |t.inodeHash| == HASHSIZE
  {
    var b := HashInode(t.inodes[i].ino);
    t.(inodes := t.inodes[i := t.inodes[i].(hashed := false)],
       inodeHash := if t.inodes[i].hashed then t.inodeHash[b := Remove(t.inodeHash[b], i)] else t.inodeHash)
  }

  function InodeHash(t: Table, i: InodePtr): Table
    requires i in t.inodes && |t.inodeHash| == HASHSIZE
  {
    var u := InodeUnhash(t, i);
    var b := HashInode(t.inodes[i].ino);
    u.(inodes := t.inodes[i := t.inodes[i].(hashed := true)], inodeHash := u.inodeHash[b := [i] + u.inodeHash[b]])
  }

  function MoveToPurge(t: Table, i: InodePtr): Table
    requires i in t.inodes && |t.inodeHash| == HASHSIZE
  {
    var u := Unlisted(t, i);
    InodeUnhash(u.(purge := u.purge + [i], purgeSize := t.purgeSize + 1), i)
  }

  function DentryUnhash(t: Table, d: DentryPtr): Table
    requires d in t.dentries && t.dentries[d].parent in t.inodes && |t.nameHash| == HASHSIZE
  {
    var b := NameBucket(t, d);
    t.(dentries := t.dentries[d := t.dentries[d].(hashed := false)],
       nameHash := if t.dentries[d].hashed then t.nameHash[b := Remove(t.nameHash[b], d)] else t.nameHash)
  }

  /** `list_del_init` and `list_add` on `parent_list`: the dentry moves to the front of its parent's list. */
  function ToFront(t: Table, d: DentryPtr): Table
    requires d in t.dentries && t.dentries[d].parent in t.inodes
  {
    var p := t.dentries[d].parent;
    t.(inodes := t.inodes[p := t.inodes[p].(childList := [d] + Remove(t.inodes[p].childList, d))])
  }

  function DentryHash(t: Table, d: DentryPtr): Table
    requires d in t.dentries && t.dentries[d].parent in t.inodes && |t.nameHash| == HASHSIZE
  {
    var u := DentryUnhash(t, d);
    var b := NameBucket(t, d);
    ToFront(u.(dentries := t.dentries[d := t.dentries[d].(hashed := true)],
               nameHash := u.nameHash[b := [d] + u.nameHash[b]]), d)
  }

  /** The part of `__dentry_unset` before the parent is unreferenced. */
  function Detach(t: Table, d: DentryPtr): Table
    requires d in t.dentries && t.dentries[d].parent in t.inodes && t.dentries[d].inode in t.inodes
    requires |t.nameHash| == HASHSIZE
  {
    var u := DentryUnhash(t, d);
    var i, p := t.dentries[d].inode, t.dentries[d].parent;
    var m := t.inodes[i := t.inodes[i].(dentryList := Remove(t.inodes[i].dentryList, d))];
    u.(inodes := m[p := m[p].(childList := Remove(m[p].childList, d))], dentries := t.dentries - {d})
  }

  /** The linking part of `__dentry_create`; the parent's reference is taken by `RefStep`. */
  function Attach(t: Table, d: DentryPtr, i: InodePtr, p: InodePtr, name: string): Table
    requires i in t.inodes && p in t.inodes
  {
    var m := t.inodes[p := t.inodes[p].(childList := [d] + t.inodes[p].childList)];
    t.(inodes := m[i := m[i].(dentryList := [d] + m[i].dentryList)],
       dentries := t.dentries[d := Dentry(i, p, name, false)])
  }
}
