/**
 Symbol filtering and the remapping of relocations in external/elfcopy/elfcopy.c:
 the filter loop of adjust_elf (lines 374-604) compacts the symbol table in place
 and records where each symbol went, and
 update_relocations_section_symbol_references (lines 1311-1419) compacts a
 relocation section by that record.
*/
module SymbolFilter {

  const SHN_UNDEF := 0
  const SHN_XINDEX := 0xFFFF
  const STB_GLOBAL := 1
  const STB_WEAK := 2

  // (Elf32_Word)-1.
  const REMOVED := 0xFFFF_FFFF

  datatype Sym = Sym(name: string, value: nat, shndx: nat, bind: nat)

  datatype Rel = Rel(offset: nat, sym: nat, kind: nat)

  // What the filter decides from: the new index of every section (0 if it is dropped).
  datatype Sections = Sections(idx: seq<nat>)

  datatype Fate = Kept | Stripped | Orphaned

  // A symbol without a section of its own: undefined, or with a special index.
  ghost predicate Absolute(y: Sym, secs: Sections) {
    y.shndx == SHN_UNDEF || y.shndx >= |secs.idx|
  }

  // An orphan is a symbol that is not to be stripped but lies in a section that is dropped.
  ghost function FateOf(y: Sym, secs: Sections, wanted: bool): Fate {
    if wanted || Absolute(y, secs) || (y.bind != STB_GLOBAL && y.bind != STB_WEAK) then
      if Absolute(y, secs) || secs.idx[y.shndx] != 0 then Kept else Orphaned
    else Stripped
  }

  // Only defined global (1) and weak (2) symbols that the filter does not name are stripped; a symbol
  // of a kept section, undefined (0) or of a special section otherwise stays.
  lemma FateMeans(y: Sym, secs: Sections, wanted: bool)
    ensures FateOf(y, secs, wanted) == Stripped <==> !wanted && 0 < y.shndx < |secs.idx| && (y.bind == 1 || y.bind == 2)
    ensures FateOf(y, secs, wanted) == Kept <==>
      y.shndx == 0 || y.shndx >= |secs.idx| || (secs.idx[y.shndx] > 0 && (wanted || (y.bind != 1 && y.bind != 2)))
  {
  }

  // The decision of the loop, in its order.
  method Decide(sym: Sym, secs: Sections, wanted: bool) returns (fate: Fate)
    ensures fate == FateOf(sym, secs, wanted)
  {
    if wanted || sym.shndx == SHN_UNDEF || sym.shndx >= |secs.idx| || (sym.bind != STB_GLOBAL && sym.bind != STB_WEAK) {
      if sym.shndx == SHN_UNDEF || sym.shndx >= |secs.idx| {
        return Kept;
      }
      var sec := secs.idx[sym.shndx];
      if sec != 0 {
        return Kept;
      }
      return Orphaned;
    }
    return Stripped;
  }

  // The fate of every symbol; symbol 0 stays.
  ghost function Fates(s: seq<Sym>, secs: Sections, filter: seq<bool>): (f: seq<Fate>)
    requires |filter| == |s|
    ensures |f| == |s|
  {
    seq(|s|, i requires 0 <= i < |s| => if i == 0 then Kept else FateOf(s[i], secs, filter[i]))
  }

  // ---- Where symbols go ----

  // The number of kept symbols before `k`.
  ghost function Rank(f: seq<Fate>, k: nat): nat
    requires k <= |f|
  {
    if k == 0 then 0 else Rank(f, k - 1) + if f[k - 1] == Kept then 1 else 0
  }

  ghost function Compact(s: seq<Sym>, f: seq<Fate>, k: nat): (r: seq<Sym>)
    requires k <= |f| == |s|
    ensures |r| == Rank(f, k)
  {
    if k == 0 then [] else Compact(s, f, k - 1) + if f[k - 1] == Kept then [s[k - 1]] else []
  }

  // newsymidx.
  ghost function NewIndex(f: seq<Fate>, i: nat): nat
    requires i < |f|
  {
    match f[i]
    case Kept => Rank(f, i)
    case Stripped => REMOVED
    case Orphaned => 0
  }

  ghost predicate Renumbered(f: seq<Fate>, new_: seq<nat>, k: nat)
    requires k <= |f| <= |new_|
  {
    forall i :: 0 <= i < k ==> new_[i] == NewIndex(f, i)
  }

  lemma {:induction false} RankMono(f: seq<Fate>, i: nat, j: nat)
    requires i <= j <= |f|
    ensures Rank(f, i) <= Rank(f, j) <= Rank(f, i) + (j - i)
    ensures i < j && f[i] == Kept ==> Rank(f, i) < Rank(f, j)
  {
    if i < j { RankMono(f, i, j - 1); }
  }

  // newsymidx is strictly increasing on the kept symbols.
  lemma KeptOrder(f: seq<Fate>, i: nat, j: nat)
    requires i < j < |f| && f[i] == f[j] == Kept
    ensures NewIndex(f, i) < NewIndex(f, j)
  {
    RankMono(f, i, j);
  }

  // A kept symbol is found at its new index.
  lemma {:induction false} KeptSymbol(s: seq<Sym>, f: seq<Fate>, i: nat, k: nat)
    requires i < k <= |f| == |s| && f[i] == Kept
    ensures NewIndex(f, i) < Rank(f, k) && Compact(s, f, k)[NewIndex(f, i)] == s[i]
  {
    RankMono(f, i, k);
    if i < k - 1 { KeptSymbol(s, f, i, k - 1); }
  }

  // The new table is dense: each of its places belongs to a kept symbol.
  lemma {:induction false} Dense(f: seq<Fate>, p: nat, k: nat) returns (i: nat)
    requires k <= |f| && p < Rank(f, k)
    ensures i < k && f[i] == Kept && NewIndex(f, i) == p
  {
    if f[k - 1] == Kept && p == Rank(f, k - 1) {
      i := k - 1;
    } else {
      i := Dense(f, p, k - 1);
    }
  }

  lemma {:induction false} AllKept(f: seq<Fate>, k: nat)
    requires k <= |f|
    ensures Rank(f, k) == k <==> forall i :: 0 <= i < k ==> f[i] == Kept
  {
    if k > 0 {
      RankMono(f, 0, k - 1);
      AllKept(f, k - 1);
    }
  }

  // The record is dropped exactly when it is the identity.
  lemma DroppedIsIdentity(f: seq<Fate>)
    requires |f| < REMOVED && (f != [] ==> f[0] == Kept)
    ensures Rank(f, |f|) == |f| <==> forall i :: 0 <= i < |f| ==> NewIndex(f, i) == i
  {
    AllKept(f, |f|);
    if Rank(f, |f|) == |f| {
      forall i | 0 <= i < |f| ensures NewIndex(f, i) == i {
        RankMono(f, 0, i);
        RankMono(f, i, |f|);
      }
    } else {
      var i :| 0 <= i < |f| && f[i] != Kept;
      assert NewIndex(f, i) != i;
    }
  }

  // ---- The filter loop ----

  // The loop at symbol `i`, with `d` symbols kept: `a` is the table and `new_` the record so far.
  ghost predicate Progress(s: seq<Sym>, f: seq<Fate>, a: seq<Sym>, new_: seq<nat>, i: nat, d: nat) {
    && |a| == |s| == |f| == |new_| && i <= |f| && d == Rank(f, i) <= i
    && a[..d] == Compact(s, f, i) && Renumbered(f, new_, i)
    && (forall k :: i <= k < |s| ==> a[k] == s[k] && new_[k] == 0)
  }

  lemma KeepStep(s: seq<Sym>, f: seq<Fate>, a: seq<Sym>, new_: seq<nat>, i: nat, d: nat)
    requires Progress(s, f, a, new_, i, d) && i < |f| && f[i] == Kept
    ensures Progress(s, f, a[d := s[i]], new_[i := d], i + 1, d + 1)
    ensures d == i ==> a[d := s[i]] == a
  {
    hide Rank;
    RankStep(f, i);
    var a' := a[d := s[i]];
    assert a'[..d + 1] == a[..d] + [s[i]];
    assert forall k :: 0 <= k < i ==> new_[i := d][k] == new_[k];
  }

  lemma DropStep(s: seq<Sym>, f: seq<Fate>, a: seq<Sym>, new_: seq<nat>, i: nat, d: nat, v: nat)
    requires Progress(s, f, a, new_, i, d) && i < |f| && f[i] != Kept && v == NewIndex(f, i)
    ensures Progress(s, f, a, new_[i := v], i + 1, d)
  {
    hide Rank;
    RankStep(f, i);
    assert Compact(s, f, i + 1) == Compact(s, f, i) + [];
    assert forall k :: 0 <= k < i ==> new_[i := v][k] == new_[k];
  }

  lemma RankStep(f: seq<Fate>, i: nat)
    requires i < |f|
    ensures Rank(f, i + 1) == Rank(f, i) + if f[i] == Kept then 1 else 0
  {
  }

  lemma Started(s: seq<Sym>, f: seq<Fate>, new_: seq<nat>)
    requires |s| == |f| == |new_| > 0 && f[0] == Kept && forall i :: 0 <= i < |new_| ==> new_[i] == 0
    ensures Progress(s, f, s, new_, 1, 1)
  {
    assert Rank(f, 1) == Rank(f, 0) + 1;
    assert Compact(s, f, 1) == Compact(s, f, 0) + [s[0]] == [s[0]] == s[..1];
  }

  /** Compacts `syms` and fills `newsymidx`; `keep` is null when there is no filter.  The result is
      false where the program ends because of an extended section index. */
  method FilterSymbols(syms: array<Sym>, newsymidx: array<nat>, keep: array?<bool>, secs: Sections, ghost filter: seq<bool>)
    returns (ok: bool, destidx: nat, changed: bool)
    requires newsymidx.Length == syms.Length && (forall i :: 0 <= i < newsymidx.Length ==> newsymidx[i] == 0)
    requires if keep == null then filter == seq(syms.Length, _ => true) else keep.Length == syms.Length && filter == keep[..]
    modifies syms, newsymidx, keep
    ensures ok <==> forall i :: 1 <= i < syms.Length ==> old(syms[i].shndx) != 0xFFFF
    ensures ok ==>
      var f := Fates(old(syms[..]), secs, filter);
      if f == [] then !changed
      else
        && destidx == Rank(f, |f|) <= syms.Length && syms[..destidx] == Compact(old(syms[..]), f, |f|)
        && Renumbered(f, newsymidx[..], |f|) && (changed <==> destidx != |f|)
    ensures ok && keep != null ==>
      forall i :: 1 <= i < keep.Length ==> keep[i] == (Fates(old(syms[..]), secs, filter)[i] == Kept)
  {
    hide FateOf, Progress;
    ghost var s := syms[..];
    ghost var f := Fates(s, secs, filter);
    destidx, changed, ok := 1, false, true;
    var inner := 1;
    if syms.Length == 0 {
      return;
    }
    Started(s, f, newsymidx[..]);
    while inner < syms.Length
      invariant inner <= syms.Length && destidx <= inner && Progress(s, f, syms[..], newsymidx[..], inner, destidx)
      invariant keep != null ==> forall i :: 0 <= i < keep.Length ==> keep[i] == if 1 <= i < inner then f[i] == Kept else filter[i]
      invariant forall i :: 1 <= i < inner ==> s[i].shndx != SHN_XINDEX
    {
      ghost var a, b := syms[..], newsymidx[..];
      var sym := syms[inner];
      Untouched(s, f, a, b, inner, destidx);
      if sym.shndx == SHN_XINDEX {
        ok := false;
        return;
      }
      var fate := Decide(sym, secs, keep == null || keep[inner]);
      if fate == Kept {
        KeepStep(s, f, a, b, inner, destidx);
        if destidx != inner {
          syms[destidx] := sym;
        }
        newsymidx[inner] := destidx;
        assert syms[..] == a[destidx := s[inner]] && newsymidx[..] == b[inner := destidx];
        destidx := destidx + 1;
      } else {
        DropStep(s, f, a, b, inner, destidx, NewIndex(f, inner));
        if fate == Stripped {
          newsymidx[inner] := REMOVED;
        }
        assert syms[..] == a && newsymidx[..] == b[inner := NewIndex(f, inner)];
      }
      if keep != null {
        keep[inner] := fate == Kept;
      }
      inner := inner + 1;
    }
    changed := destidx != inner;
    Finished(s, f, syms[..], newsymidx[..], inner, destidx);
  }

  lemma Untouched(s: seq<Sym>, f: seq<Fate>, a: seq<Sym>, new_: seq<nat>, i: nat, d: nat)
    requires Progress(s, f, a, new_, i, d) && i < |f|
    ensures |a| == |s| == |new_| && a[i] == s[i] && new_[i] == 0
  {
  }

  lemma Finished(s: seq<Sym>, f: seq<Fate>, a: seq<Sym>, new_: seq<nat>, i: nat, d: nat)
    requires Progress(s, f, a, new_, i, d) && i == |f|
    ensures |a| == |s| == |new_| && d == Rank(f, |f|) <= |a| && a[..d] == Compact(s, f, |f|) && Renumbered(f, new_, |f|)
  {
  }

  // ---- Relocations ----

  // The relocations that stay, with their new symbol indices.
  ghost function Remap(rels: seq<Rel>, new_: seq<nat>, k: nat): (r: seq<Rel>)
    requires k <= |rels| && forall i :: 0 <= i < |rels| ==> rels[i].sym < |new_|
    ensures |r| <= k
  {
    if k == 0 then []
    else
      var x := rels[k - 1];
      Remap(rels, new_, k - 1) + if new_[x.sym] != REMOVED then [x.(sym := new_[x.sym])] else []
  }

  /** update_relocations_section_symbol_references: `nrels` entries of `rels`, compacted in place.
      Both kinds of entries are treated alike. */
  method UpdateRelocations(rels: array<Rel>, nrels: nat, newsymidx: seq<nat>) returns (newidx: nat)
    requires nrels <= rels.Length && forall i :: 0 <= i < nrels ==> rels[i].sym < |newsymidx|
    modifies rels
    ensures newidx <= nrels && rels[..newidx] == Remap(old(rels[..nrels]), newsymidx, nrels)
  {
    ghost var r := rels[..nrels];
    newidx := 0;
    var relidx := 0;
    while relidx < nrels
      invariant newidx <= relidx <= nrels && rels[..newidx] == Remap(r, newsymidx, relidx)
      invariant forall k :: relidx <= k < nrels ==> rels[k] == r[k]
    {
      var rel := rels[relidx];
      if newsymidx[rel.sym] != REMOVED {
        rels[newidx] := rel.(sym := newsymidx[rel.sym]);
        newidx := newidx + 1;
      }
      relidx := relidx + 1;
    }
  }

  // The place of old entry `i` among the remapped ones.
  lemma {:induction false} RemapAt(rels: seq<Rel>, new_: seq<nat>, i: nat, k: nat)
    requires i < k <= |rels| && (forall j :: 0 <= j < |rels| ==> rels[j].sym < |new_|) && new_[rels[i].sym] != REMOVED
    ensures |Remap(rels, new_, i)| < |Remap(rels, new_, k)|
    ensures Remap(rels, new_, k)[|Remap(rels, new_, i)|] == rels[i].(sym := new_[rels[i].sym])
  {
    if i < k - 1 { RemapAt(rels, new_, i, k - 1); }
  }

  // No entry is added: each remapped one comes from an old one, in order.
  lemma {:induction false} RemapFrom(rels: seq<Rel>, new_: seq<nat>, p: nat, k: nat) returns (i: nat)
    requires k <= |rels| && (forall j :: 0 <= j < |rels| ==> rels[j].sym < |new_|) && p < |Remap(rels, new_, k)|
    ensures i < k && new_[rels[i].sym] != REMOVED && |Remap(rels, new_, i)| == p
  {
    var x := rels[k - 1];
    if new_[x.sym] != REMOVED && p == |Remap(rels, new_, k)| - 1 {
      i := k - 1;
    } else {
      i := RemapFrom(rels, new_, p, k - 1);
    }
  }

  // ---- Both together ----

  // Relocation `i` is gone if its symbol was stripped, and otherwise names the same symbol in the
  // new table and is otherwise the same.
  ghost predicate Faithful(s: seq<Sym>, f: seq<Fate>, new_: seq<nat>, rels: seq<Rel>, i: nat)
    requires |s| == |f| == |new_| && i < |rels| && forall j :: 0 <= j < |rels| ==> rels[j].sym < |new_|
  {
    var x, at := rels[i], |Remap(rels, new_, i)|;
    if f[x.sym] == Stripped then new_[x.sym] == 0xFFFF_FFFF
    else
      && at < |Remap(rels, new_, |rels|)|
      && var y := Remap(rels, new_, |rels|)[at];
         y.offset == x.offset && y.kind == x.kind && y.sym < Rank(f, |f|) && Compact(s, f, |f|)[y.sym] == s[x.sym]
  }

  lemma KeptBelow(f: seq<Fate>, i: nat)
    requires i < |f| < REMOVED && f[i] == Kept
    ensures NewIndex(f, i) < REMOVED
  {
    RankMono(f, 0, i);
  }

  // A relocation is remapped faithfully unless its symbol is an orphan: of a dropped section, and wanted
  // or neither global nor weak.  Then it comes to name symbol 0.
  lemma FaithfulExactly(s: seq<Sym>, secs: Sections, filter: seq<bool>, new_: seq<nat>, rels: seq<Rel>, i: nat)
    requires |filter| == |s| == |new_| && 0 < |s| < REMOVED && i < |rels| && (forall j :: 0 <= j < |rels| ==> rels[j].sym < |new_|)
    requires Renumbered(Fates(s, secs, filter), new_, |s|) && s[0].shndx == SHN_UNDEF
    ensures Faithful(s, Fates(s, secs, filter), new_, rels, i) <==>
      var n, y := rels[i].sym, s[rels[i].sym];
      n == 0 || y.shndx == 0 || y.shndx >= |secs.idx| || secs.idx[y.shndx] > 0 || (!filter[n] && (y.bind == 1 || y.bind == 2))
  {
    hide Remap, Compact, FateOf;
    var f, x := Fates(s, secs, filter), rels[i];
    FateMeans(s[x.sym], secs, filter[x.sym]);
    match f[x.sym]
    case Kept =>
      KeptBelow(f, x.sym);
      KeptSymbol(s, f, x.sym, |f|);
      RemapAt(rels, new_, i, |rels|);
    case Stripped =>
    case Orphaned =>
      RemapAt(rels, new_, i, |rels|);
      KeptSymbol(s, f, 0, |f|);
      assert s[x.sym].shndx != SHN_UNDEF;
  }

  // Such a relocation exists: a section symbol of a dropped section is neither kept nor marked as
  // removed.
  lemma OrphanExample()
    ensures var s, secs := [Sym("", 0, SHN_UNDEF, 0), Sym("", 0, 1, 0)], Sections([0, 0]);
      !Faithful(s, Fates(s, secs, [true, true]), [0, 0], [Rel(8, 1, 2)], 0)
  {
    var s, secs := [Sym("", 0, SHN_UNDEF, 0), Sym("", 0, 1, 0)], Sections([0, 0]);
    var f := Fates(s, secs, [true, true]);
    assert f == [Kept, Orphaned];
    assert Rank(f, 0) == 0;
    FaithfulExactly(s, secs, [true, true], [0, 0], [Rel(8, 1, 2)], 0);
  }
}
