/**
`__inode_replace`: a fresh inode takes over the names and the children of the inode already hashed
under its number. `Copied` describes the table while the dentries are copied one by one, `Adopt`
the change of parent of all children.
*/
module Replacement {
  import opened Seqs
  import opened InodeState
  import opened InodeLemmas
  import opened DentryLemmas
  import opened Cascade
  import opened Resolution

  /** `c` is the copy on `newi` of a dentry that was `orig`. */
  predicate IsCopy(w: Table, c: DentryPtr, newi: InodePtr, orig: Dentry) {
    && c in w.dentries && w.dentries[c].inode == newi && SameName(w.dentries[c], orig)
    && w.dentries[c].hashed == orig.hashed
  }

  /** Dentries, children and more references aside, the two are the same. */
  predicate SameBut(a: Inode, b: Inode) {
    && b.ino == a.ino && b.mode == a.mode && b.nlookup == a.nlookup && b.generation == a.generation
    && b.hashed == a.hashed && a.ref <= b.ref && (a.ref > 0 <==> b.ref > 0)
  }

  ghost predicate CopyFrame(t: Table, w: Table, newi: InodePtr) {
    && w.inodes.Keys == t.inodes.Keys && w.inodeHash == t.inodeHash
    && w.active == t.active && w.lru == t.lru && w.purge == t.purge
    && w.lruLimit == t.lruLimit && w.root == t.root
    && (forall i :: i in t.inodes ==>
          SameBut(t.inodes[i], w.inodes[i]) && (i != newi ==> w.inodes[i].dentryList == t.inodes[i].dentryList))
  }

  /** Dentries other than the copied ones are untouched, and new ones belong to `newi`. */
  ghost predicate Carried(t: Table, w: Table, newi: InodePtr, done: set<DentryPtr>) {
    && (forall d :: d in t.dentries ==>
          && d in w.dentries && w.dentries[d].inode == t.dentries[d].inode && SameName(w.dentries[d], t.dentries[d])
          && (d in done ==> !w.dentries[d].hashed)
          && (t.dentries[d].inode != newi && d !in done ==> w.dentries[d].hashed == t.dentries[d].hashed))
    && (forall c :: c in w.dentries && c !in t.dentries ==> w.dentries[c].inode == newi)
  }

  ghost predicate HasCopy(w: Table, newi: InodePtr, orig: Dentry) {
    exists c :: IsCopy(w, c, newi, orig)
  }

  /** Every dentry done has its copy. */
  ghost predicate HaveCopies(t: Table, w: Table, oldi: InodePtr, newi: InodePtr, done: set<DentryPtr>) {
    forall d :: d in done ==> d in t.dentries && t.dentries[d].inode == oldi && HasCopy(w, newi, t.dentries[d])
  }

  ghost predicate HasSource(t: Table, done: set<DentryPtr>, copy: Dentry) {
    exists d :: d in done && d in t.dentries && t.dentries[d].hashed && SameName(t.dentries[d], copy)
  }

  /** Every hashed dentry of `newi` copies a hashed one. */
  ghost predicate Sourced(t: Table, w: Table, newi: InodePtr, done: set<DentryPtr>) {
    forall c :: c in w.dentries && w.dentries[c].inode == newi && w.dentries[c].hashed ==>
      HasSource(t, done, w.dentries[c])
  }

  ghost predicate HasPattern(t: Table, oldi: InodePtr, copy: Dentry) {
    exists d :: d in t.dentries && t.dentries[d].inode == oldi && SameName(t.dentries[d], copy)
  }

  /** Every new dentry has the name of one of `oldi`. */
  ghost predicate Derived(t: Table, w: Table, oldi: InodePtr) {
    forall c :: c in w.dentries && c !in t.dentries ==> HasPattern(t, oldi, w.dentries[c])
  }

  ghost predicate CopiedDentries(t: Table, w: Table, oldi: InodePtr, newi: InodePtr, done: set<DentryPtr>) {
    && Carried(t, w, newi, done) && HaveCopies(t, w, oldi, newi, done) && Sourced(t, w, newi, done)
    && Derived(t, w, oldi)
  }

  /** `w` is `t` after the dentries `done` of `oldi` have been copied to `newi`. */
  ghost predicate Copied(t: Table, w: Table, oldi: InodePtr, newi: InodePtr, done: set<DentryPtr>) {
    CopyFrame(t, w, newi) && CopiedDentries(t, w, oldi, newi, done)
  }

  lemma CopyStart(t: Table, oldi: InodePtr, newi: InodePtr)
    requires Tidy(t, {}) && LinksOk(t) && newi in t.inodes && !t.inodes[newi].hashed
    ensures Copied(t, t, oldi, newi, {})
  {
    hide NoDup;
  }

  /** Creating the copy: a fresh, unhashed dentry on `newi`. */
  lemma CopyCreateFrame(t: Table, w: Table, newi: InodePtr, c: DentryPtr, p: InodePtr, name: string)
    requires CopyFrame(t, w, newi)
    requires newi in w.inodes && p in w.inodes && w.inodes[p].ref > 0
    ensures CopyFrame(t, Attach(RefStep(w, p), c, newi, p, name), newi)
  {
  }

  lemma CopyCreateDentries(t: Table, w: Table, oldi: InodePtr, newi: InodePtr, done: set<DentryPtr>, c: DentryPtr,
      p: InodePtr, name: string, u: Table)
    requires CopiedDentries(t, w, oldi, newi, done)
    requires c !in w.dentries && u.dentries == w.dentries[c := Dentry(newi, p, name, false)]
    requires HasPattern(t, oldi, Dentry(newi, p, name, false))
    ensures CopiedDentries(t, u, oldi, newi, done)
  {
    hide HasSource, HasPattern, HaveCopies;
    CopiesStay(t, w, oldi, newi, done, u);
  }

  lemma CopiesStay(t: Table, w: Table, oldi: InodePtr, newi: InodePtr, done: set<DentryPtr>, u: Table)
    requires HaveCopies(t, w, oldi, newi, done)
    requires forall c :: c in w.dentries ==> c in u.dentries && u.dentries[c] == w.dentries[c]
    ensures HaveCopies(t, u, oldi, newi, done)
  {
    forall d | d in done ensures d in t.dentries && HasCopy(u, newi, t.dentries[d]) {
      var e :| IsCopy(w, e, newi, t.dentries[d]);
      assert IsCopy(u, e, newi, t.dentries[d]);
    }
  }

  /** No dentry done so far has the name of one still to do. */
  lemma DoneDistinct(t: Table, oldi: InodePtr, newi: InodePtr, w: Table, done: set<DentryPtr>, d: DentryPtr)
    requires HaveCopies(t, w, oldi, newi, done) && NamesOk(t, {})
    requires d in t.dentries && t.dentries[d].inode == oldi && d !in done
    ensures forall e :: e in done ==> !SameName(t.dentries[e], t.dentries[d])
  {
    forall e | e in done ensures !SameName(t.dentries[e], t.dentries[d]) {
      assert !Clash(t.dentries[e], t.dentries[d]);
    }
  }

  /** The dentry of `newi` that will stand for `d` is not hashed yet. */
  lemma CopyUnhashed(t: Table, w: Table, oldi: InodePtr, newi: InodePtr, done: set<DentryPtr>, d: DentryPtr,
      c: DentryPtr)
    requires Sourced(t, w, newi, done) && d in t.dentries && (forall e :: e in done ==> e in t.dentries)
    requires forall e :: e in done ==> !SameName(t.dentries[e], t.dentries[d])
    requires c in w.dentries && w.dentries[c].inode == newi && SameName(w.dentries[c], t.dentries[d])
    ensures !w.dentries[c].hashed
  {
  }

  /** An unhashed dentry is done once its copy exists. */
  lemma CopyPlain(t: Table, w: Table, oldi: InodePtr, newi: InodePtr, done: set<DentryPtr>, d: DentryPtr, c: DentryPtr)
    requires CopiedDentries(t, w, oldi, newi, done) && oldi != newi
    requires d in t.dentries && t.dentries[d].inode == oldi && d !in done && !w.dentries[d].hashed
    requires c in w.dentries && w.dentries[c].inode == newi && SameName(w.dentries[c], t.dentries[d])
    requires !w.dentries[c].hashed
    ensures CopiedDentries(t, w, oldi, newi, done + {d})
  {
    assert IsCopy(w, c, newi, t.dentries[d]);
    assert HasCopy(w, newi, t.dentries[d]);
    hide HasCopy, HasPattern;
    forall f | f in w.dentries && w.dentries[f].inode == newi && w.dentries[f].hashed
      ensures HasSource(t, done + {d}, w.dentries[f])
    {
      SourceMore(t, done, d, w.dentries[f]);
    }
  }

  lemma SourceMore(t: Table, done: set<DentryPtr>, d: DentryPtr, copy: Dentry)
    requires HasSource(t, done, copy)
    ensures HasSource(t, done + {d}, copy)
  {
    var e :| e in done && e in t.dentries && t.dentries[e].hashed && SameName(t.dentries[e], copy);
    assert e in done + {d};
  }

  /** A hashed dentry hands its place in the name hash to its copy. */
  lemma CopyHashedDentries(t: Table, w: Table, oldi: InodePtr, newi: InodePtr, done: set<DentryPtr>, d: DentryPtr,
      c: DentryPtr, u: Table)
    requires CopiedDentries(t, w, oldi, newi, done) && oldi != newi
    requires d in t.dentries && t.dentries[d].inode == oldi && d !in done && t.dentries[d].hashed
    requires forall e :: e in done && e in t.dentries ==> !SameName(t.dentries[e], t.dentries[d])
    requires c in w.dentries && w.dentries[c].inode == newi && SameName(w.dentries[c], t.dentries[d])
    requires c != d && d in w.dentries
    requires u.dentries == w.dentries[d := w.dentries[d].(hashed := false)][c := w.dentries[c].(hashed := true)]
    ensures CopiedDentries(t, u, oldi, newi, done + {d})
  {
    hide HaveCopies, Sourced, Derived, Carried;
    DoneOld(t, w, oldi, newi, done);
    CopyHashedCarried(t, w, oldi, newi, done, d, c, u);
    CopyHashedCopies(t, w, oldi, newi, done, d, c, u);
    CopyHashedSources(t, w, oldi, newi, done, d, c, u);
    DerivedHashed(t, w, u, oldi);
  }

  lemma DoneOld(t: Table, w: Table, oldi: InodePtr, newi: InodePtr, done: set<DentryPtr>)
    requires HaveCopies(t, w, oldi, newi, done)
    ensures forall e :: e in done ==> e in t.dentries && t.dentries[e].inode == oldi
  {
    hide HasCopy;
  }

  lemma CopyHashedCarried(
    t: Table, w: Table, oldi: InodePtr, newi: InodePtr, done: set<DentryPtr>, d: DentryPtr, c: DentryPtr, u: Table)
    requires Carried(t, w, newi, done) && d in t.dentries && t.dentries[d].inode == oldi && oldi != newi
    requires c in w.dentries && w.dentries[c].inode == newi && c != d && d in w.dentries
    requires forall e :: e in done && e in t.dentries ==> t.dentries[e].inode == oldi
    requires u.dentries == w.dentries[d := w.dentries[d].(hashed := false)][c := w.dentries[c].(hashed := true)]
    ensures Carried(t, u, newi, done + {d}) && w.dentries[d].inode == oldi
  {
  }

  /** Hashing plays no part in where names come from. */
  lemma DerivedHashed(t: Table, w: Table, u: Table, oldi: InodePtr)
    requires Derived(t, w, oldi) && u.dentries.Keys == w.dentries.Keys
    requires forall c :: c in w.dentries ==> SameName(w.dentries[c], u.dentries[c])
    ensures Derived(t, u, oldi)
  {
    forall c | c in u.dentries && c !in t.dentries ensures HasPattern(t, oldi, u.dentries[c]) {
      var d :| d in t.dentries && t.dentries[d].inode == oldi && SameName(t.dentries[d], w.dentries[c]);
      assert SameName(t.dentries[d], u.dentries[c]);
    }
  }

  lemma CopyHashedCopies(t: Table, w: Table, oldi: InodePtr, newi: InodePtr, done: set<DentryPtr>, d: DentryPtr,
      c: DentryPtr, u: Table)
    requires HaveCopies(t, w, oldi, newi, done) && oldi != newi
    requires d in t.dentries && t.dentries[d].inode == oldi && t.dentries[d].hashed
    requires forall e :: e in done && e in t.dentries ==> !SameName(t.dentries[e], t.dentries[d])
    requires c in w.dentries && w.dentries[c].inode == newi && SameName(w.dentries[c], t.dentries[d])
    requires c != d && d in w.dentries && w.dentries[d].inode == oldi
    requires u.dentries == w.dentries[d := w.dentries[d].(hashed := false)][c := w.dentries[c].(hashed := true)]
    ensures HaveCopies(t, u, oldi, newi, done + {d})
  {
    assert IsCopy(u, c, newi, t.dentries[d]);
    forall e | e in done + {d}
      ensures e in t.dentries && t.dentries[e].inode == oldi && HasCopy(u, newi, t.dentries[e])
    {
      if e != d {
        var f :| IsCopy(w, f, newi, t.dentries[e]);
        assert IsCopy(u, f, newi, t.dentries[e]);
      }
    }
  }

  lemma CopyHashedSources(t: Table, w: Table, oldi: InodePtr, newi: InodePtr, done: set<DentryPtr>, d: DentryPtr,
      c: DentryPtr, u: Table)
    requires Sourced(t, w, newi, done) && d in t.dentries && t.dentries[d].hashed
    requires c in w.dentries && SameName(w.dentries[c], t.dentries[d]) && c != d && d in w.dentries
    requires u.dentries == w.dentries[d := w.dentries[d].(hashed := false)][c := w.dentries[c].(hashed := true)]
    ensures Sourced(t, u, newi, done + {d})
  {
    forall f | f in u.dentries && u.dentries[f].inode == newi && u.dentries[f].hashed
      ensures HasSource(t, done + {d}, u.dentries[f])
    {
      if f == c {
        assert d in done + {d} && SameName(t.dentries[d], u.dentries[f]);
      } else {
        SourceMore(t, done, d, w.dentries[f]);
      }
    }
  }

  /** The hashing of `d` passes to `c`. */
  function HandOver(t: Table, d: DentryPtr, c: DentryPtr): Table
    requires d in t.dentries && c in t.dentries && |t.nameHash| == HASHSIZE
    requires t.dentries[d].parent in t.inodes && t.dentries[c].parent in t.inodes
  {
    DentryHash(DentryUnhash(t, d), c)
  }

  lemma CopyHashedFrame(t: Table, w: Table, newi: InodePtr, d: DentryPtr, c: DentryPtr)
    requires CopyFrame(t, w, newi) && d in w.dentries && c in w.dentries && c != d && |w.nameHash| == HASHSIZE
    requires w.dentries[d].parent in w.inodes && w.dentries[c].parent in w.inodes
    ensures var u := HandOver(w, d, c);
      && CopyFrame(t, u, newi)
      && u.dentries == w.dentries[d := w.dentries[d].(hashed := false)][c := w.dentries[c].(hashed := true)]
  {
    hide Remove, HashName;
  }

  // ---------------------------------------------------------------- children

  /** `__adopt_children` as one step: all children of `oldi` get the parent `newi`. */
  ghost function Adopt(t: Table, oldi: InodePtr, newi: InodePtr): Table
    requires oldi in t.inodes && newi in t.inodes && oldi != newi
    requires t.inodes[oldi].ino == 1 || t.inodes[oldi].ref >= |t.inodes[oldi].childList|
  {
    var a, b := t.inodes[oldi], t.inodes[newi];
    var n := |a.childList|;
    t.(inodes := t.inodes[oldi := a.(ref := if a.ino == 1 then a.ref else a.ref - n, childList := [])]
                         [newi := b.(ref := b.ref + n, childList := a.childList + b.childList)],
       dentries := Reparented(t.dentries, a.childList, newi))
  }

  ghost function Reparented(dentries: map<DentryPtr, Dentry>, moved: seq<DentryPtr>, p: InodePtr)
    : map<DentryPtr, Dentry>
  {
    map d | d in dentries :: if d in moved then dentries[d].(parent := p) else dentries[d]
  }

  /** The reference counts after `k` children have been moved; those of number 1 are not released. */
  ghost function Recounted(t: Table, oldi: InodePtr, newi: InodePtr, k: nat): map<InodePtr, Inode>
    requires oldi in t.inodes && newi in t.inodes && oldi != newi
    requires t.inodes[oldi].ino == 1 || t.inodes[oldi].ref >= k
  {
    var a, b := t.inodes[oldi], t.inodes[newi];
    t.inodes[oldi := a.(ref := if a.ino == 1 then a.ref else a.ref - k)][newi := b.(ref := b.ref + k)]
  }

  /** One reference moves from `oldi` to `newi`. */
  function Shifted(inodes: map<InodePtr, Inode>, oldi: InodePtr, newi: InodePtr): map<InodePtr, Inode>
    requires oldi in inodes && newi in inodes && oldi != newi
    requires inodes[oldi].ino == 1 || inodes[oldi].ref > 0
  {
    var a, b := inodes[oldi], inodes[newi];
    inodes[oldi := a.(ref := if a.ino == 1 then a.ref else a.ref - 1)][newi := b.(ref := b.ref + 1)]
  }

  lemma AdoptNone(t: Table, oldi: InodePtr, newi: InodePtr)
    requires oldi in t.inodes && newi in t.inodes && oldi != newi
    ensures Recounted(t, oldi, newi, 0) == t.inodes
    ensures Reparented(t.dentries, t.inodes[oldi].childList[..0], newi) == t.dentries
  {
  }

  lemma AdoptMore(t: Table, oldi: InodePtr, newi: InodePtr, list: seq<DentryPtr>, k: nat)
    requires oldi in t.inodes && newi in t.inodes && oldi != newi
    requires t.inodes[oldi].ino == 1 || t.inodes[oldi].ref > k + 1
    requires k < |list| && list[k] in t.dentries && list[k] !in list[..k]
    ensures var r := Recounted(t, oldi, newi, k);
      && oldi in r && newi in r && r[oldi].ino == t.inodes[oldi].ino && r[newi].ref == t.inodes[newi].ref + k
      && (r[oldi].ino == 1 || r[oldi].ref > 1)
      && Recounted(t, oldi, newi, k + 1) == Shifted(r, oldi, newi)
    ensures var r := Reparented(t.dentries, list[..k], newi);
      && list[k] in r && r[list[k]] == t.dentries[list[k]]
      && Reparented(t.dentries, list[..k + 1], newi) == r[list[k] := r[list[k]].(parent := newi)]
  {
    assert list[..k + 1] == list[..k] + [list[k]];
  }

  lemma RecountedAll(t: Table, oldi: InodePtr, newi: InodePtr)
    requires oldi in t.inodes && newi in t.inodes && oldi != newi
    requires t.inodes[oldi].ino == 1 || t.inodes[oldi].ref >= |t.inodes[oldi].childList|
    ensures var r := Recounted(t, oldi, newi, |t.inodes[oldi].childList|);
      && oldi in r && newi in r
      && r[newi := r[newi].(childList := t.inodes[oldi].childList + r[newi].childList)]
          [oldi := r[oldi].(childList := [])]
         == Adopt(t, oldi, newi).inodes
  {
  }

  ghost predicate AdoptReady(t: Table, held: map<InodePtr, nat>, oldi: InodePtr, newi: InodePtr) {
    && oldi in t.inodes && newi in t.inodes && oldi != newi && oldi in held && newi in held
    && held[oldi] > 0 && held[newi] > 0 && t.inodes[newi].childList == []
    && t.inodes[oldi].ino == t.inodes[newi].ino
    && t.inodes[oldi].ref >= held[oldi] + |t.inodes[oldi].childList|
  }

  /** `Adopt`, field by field. */
  ghost predicate Adopted(t: Table, u: Table, oldi: InodePtr, newi: InodePtr)
    requires oldi in t.inodes && newi in t.inodes
  {
    && u.inodes.Keys == t.inodes.Keys && u.dentries.Keys == t.dentries.Keys
    && (forall i :: i in t.inodes ==> u.inodes[i].dentryList == t.inodes[i].dentryList)
    && (forall i :: i in t.inodes && i != oldi && i != newi ==> u.inodes[i].childList == t.inodes[i].childList)
    && u.inodes[oldi].childList == [] && u.inodes[newi].childList == t.inodes[oldi].childList
    && (forall d :: d in t.dentries ==>
          && u.dentries[d].inode == t.dentries[d].inode
          && u.dentries[d].parent == if t.dentries[d].parent == oldi then newi else t.dentries[d].parent)
  }

  lemma AdoptFacts(t: Table, held: map<InodePtr, nat>, oldi: InodePtr, newi: InodePtr)
    requires LinksOk(t) && AdoptReady(t, held, oldi, newi)
    ensures Adopted(t, Adopt(t, oldi, newi), oldi, newi)
  {
    hide NoDup;
  }

  lemma AdoptedLinks(t: Table, u: Table, oldi: InodePtr, newi: InodePtr)
    requires oldi in t.inodes && newi in t.inodes && oldi != newi && t.inodes[newi].childList == []
    requires LinksOk(t) && Adopted(t, u, oldi, newi)
    ensures LinksOk(u)
  {
    hide NoDup;
    NoDupNil<DentryPtr>();
  }

  lemma AdoptLinks(t: Table, held: map<InodePtr, nat>, oldi: InodePtr, newi: InodePtr)
    requires LinksOk(t) && AdoptReady(t, held, oldi, newi)
    ensures LinksOk(Adopt(t, oldi, newi))
  {
    hide LinksOk, Adopt, Adopted;
    AdoptFacts(t, held, oldi, newi);
    AdoptedLinks(t, Adopt(t, oldi, newi), oldi, newi);
  }

  lemma AdoptNames(t: Table, held: map<InodePtr, nat>, oldi: InodePtr, newi: InodePtr)
    requires LinksOk(t) && NamesOk(t, {newi}) && AdoptReady(t, held, oldi, newi)
    ensures NamesOk(Adopt(t, oldi, newi), {newi})
  {
    hide NoDup;
    var u := Adopt(t, oldi, newi);
    forall d, e | d in u.dentries && e in u.dentries && Clash(u.dentries[d], u.dentries[e]) ensures d == e {
      assert t.dentries[d].parent != newi && t.dentries[e].parent != newi;
      assert Clash(t.dentries[d], t.dentries[e]);
    }
  }

  lemma AdoptBuckets(t: Table, held: map<InodePtr, nat>, oldi: InodePtr, newi: InodePtr)
    requires LinksOk(t) && NameBucketsOk(t) && AdoptReady(t, held, oldi, newi)
    ensures NameBucketsOk(Adopt(t, oldi, newi))
  {
    hide NoDup, HashName;
    var u := Adopt(t, oldi, newi);
    assert forall d :: d in t.dentries ==> u.dentries[d].parent in u.inodes && NameBucket(u, d) == NameBucket(t, d);
  }

  lemma AdoptTidy(t: Table, held: map<InodePtr, nat>, oldi: InodePtr, newi: InodePtr)
    requires Tidy(t, {newi}) && AdoptReady(t, held, oldi, newi)
    ensures Tidy(Adopt(t, oldi, newi), {newi})
  {
  }

  lemma AdoptAccounts(t: Table, held: map<InodePtr, nat>, oldi: InodePtr, newi: InodePtr)
    requires Accounts(t, held) && AdoptReady(t, held, oldi, newi)
    ensures Accounts(Adopt(t, oldi, newi), held)
  {
    hide Reparented;
  }

  lemma AdoptLists(t: Table, held: map<InodePtr, nat>, oldi: InodePtr, newi: InodePtr)
    requires ListsOk(t) && AdoptReady(t, held, oldi, newi) && t.inodes[newi].ref > 0
    ensures ListsOk(Adopt(t, oldi, newi))
    ensures SameInos(t, Adopt(t, oldi, newi)) && SameHashed(t, Adopt(t, oldi, newi))
  {
    hide NoDup, Reparented;
  }

  lemma AdoptKeeps(t: Table, held: map<InodePtr, nat>, oldi: InodePtr, newi: InodePtr)
    requires Inv(t, held, {newi}) && AdoptReady(t, held, oldi, newi)
    ensures Inv(Adopt(t, oldi, newi), held, {newi})
  {
    hide LinksOk, NumbersOk, NamesOk, NameBucketsOk, ListsOk, Accounts, Tidy, SameInos, SameHashed, Reparented;
    AdoptLinks(t, held, oldi, newi);
    AdoptNames(t, held, oldi, newi);
    AdoptBuckets(t, held, oldi, newi);
    AdoptTidy(t, held, oldi, newi);
    AdoptAccounts(t, held, oldi, newi);
    HeldParent(t, held, newi);
    AdoptLists(t, held, oldi, newi);
    NumbersFrame(t, Adopt(t, oldi, newi));
  }

  // ---------------------------------------------------------------- the old inode leaves the hash

  /** `oldi` has neither children nor hashed dentries left. */
  ghost predicate Emptied(t: Table, oldi: InodePtr)
    requires oldi in t.inodes
  {
    && t.inodes[oldi].childList == [] && t.inodes[oldi].ref > 0
    && (forall d :: d in t.dentries && t.dentries[d].inode == oldi ==> !t.dentries[d].hashed)
  }

  lemma UnhashOldNames(t: Table, oldi: InodePtr, newi: InodePtr)
    requires LinksOk(t) && NamesOk(t, {newi}) && Tidy(t, {newi}) && |t.inodeHash| == HASHSIZE
    requires oldi in t.inodes && Emptied(t, oldi)
    ensures NamesOk(InodeUnhash(t, oldi), {newi}) && Tidy(InodeUnhash(t, oldi), {newi})
  {
    hide NoDup, HashInode, Remove;
    var u := InodeUnhash(t, oldi);
    forall d, e | d in u.dentries && e in u.dentries && Clash(u.dentries[d], u.dentries[e]) ensures d == e {
      assert Clash(t.dentries[d], t.dentries[e]);
    }
  }

  lemma UnhashOldLists(t: Table, held: map<InodePtr, nat>, oldi: InodePtr)
    requires ListsOk(t) && Accounts(t, held) && |t.inodeHash| == HASHSIZE
    requires oldi in t.inodes && t.inodes[oldi].ref > 0
    ensures ListsOk(InodeUnhash(t, oldi)) && Accounts(InodeUnhash(t, oldi), held)
  {
    hide NoDup, HashInode, Remove;
  }

  lemma UnhashOldKeeps(t: Table, held: map<InodePtr, nat>, oldi: InodePtr, newi: InodePtr)
    requires Inv(t, held, {newi}) && |t.inodeHash| == HASHSIZE
    requires oldi in t.inodes && Emptied(t, oldi)
    ensures Inv(InodeUnhash(t, oldi), held, {newi})
  {
    hide LinksOk, NumbersOk, NamesOk, NameBucketsOk, ListsOk, Accounts, Tidy, SameInos, SameLinks, InodeUnhash;
    UnhashOldNames(t, oldi, newi);
    UnhashOldLists(t, held, oldi);
    InodeUnhashNumbers(t, oldi);
    InodeUnhashSame(t, oldi);
    LinksFrame(t, InodeUnhash(t, oldi));
    UnhashBuckets(t, oldi);
  }

  lemma UnhashBuckets(t: Table, i: InodePtr)
    requires NameBucketsOk(t) && i in t.inodes && |t.inodeHash| == HASHSIZE
    ensures NameBucketsOk(InodeUnhash(t, i))
  {
    hide NameBucketsOk;
    InodeUnhashSame(t, i);
    NameBucketsFrame(t, InodeUnhash(t, i));
  }
}
