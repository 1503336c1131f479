/**
 The marks read off a tree are exact: a stretch of code is marked, whole, when
 a predicate over it is definitely false, and not touched otherwise.
 */
module CfgSites {
  import opened RustTokens
  import opened CfgPredicate
  import opened ItemEnd
  import opened CfgSpans
  import opened CfgItems

  predicate Misses(m: Mark, first: int, last: int) {
    m.Region? && (m.last < first || last < m.first)
  }

  /** A region all of whose tokens lie in `first..last`. */
  predicate Within(m: Mark, first: int, last: int) {
    m.Region? && first <= m.first && m.last <= last
  }

  /** One region (or the file) covers the stretch whole, or none touches it. */
  ghost predicate Settled(marks: set<Mark>, first: int, last: int, gates: seq<Pred>, cfg: TargetCfg) {
    if Dead(gates, cfg)
    then exists m | m in marks :: m.WholeFile? || (m.first <= first && last <= m.last)
    else forall m | m in marks :: Misses(m, first, last)
  }

  /** The verdict on a site. A live block may hold dead items, so what is
      claimed of it is its own two braces. */
  ghost predicate SiteExact(marks: set<Mark>, s: Site, cfg: TargetCfg) {
    if s.block && !Dead(s.gates, cfg)
    then forall m | m in marks :: Misses(m, s.first, s.first) && Misses(m, s.last, s.last)
    else Settled(marks, s.first, s.last, s.gates, cfg)
  }

  function MarkSet(marks: seq<Mark>): set<Mark> {
    set m | m in marks
  }

  lemma MarkSetConcat(a: seq<Mark>, b: seq<Mark>)
    ensures MarkSet(a + b) == MarkSet(a) + MarkSet(b)
  {
  }

  lemma DeadConcat(a: seq<Pred>, b: seq<Pred>, cfg: TargetCfg)
    ensures Dead(a + b, cfg) <==> Dead(a, cfg) || Dead(b, cfg)
  {
    if Dead(a, cfg) {
      var g :| g in a && Value(g, cfg) == False;
      assert g in a + b;
    } else if Dead(b, cfg) {
      var g :| g in b && Value(g, cfg) == False;
      assert g in a + b;
    }
  }

  // ---- where marks lie ---------------------------------------------------

  lemma {:induction false} AttrMarksExact(attrs: seq<Attr>, off: nat, last: nat, cfg: TargetCfg)
    ensures forall m | m in AttrMarks(attrs, off, last, cfg) :: m.Region? && off <= m.first && m.last == last
    ensures forall m | m in AttrMarks(attrs, off, last, cfg) :: m.first < off + |PrintAttrs(attrs, false)|
    ensures Dead(AttrPreds(attrs), cfg) <==> AttrMarks(attrs, off, last, cfg) != []
  {
    if attrs != [] {
      AttrMarksExact(attrs[1..], off + |PrintAttr(attrs[0], false)|, last, cfg);
      DeadConcat(if attrs[0].CfgAttr? then [attrs[0].p] else [], AttrPreds(attrs[1..]), cfg);
      if attrs[0].CfgAttr? {
        assert attrs[0].p in [attrs[0].p];
      }
    }
  }

  lemma {:induction false} InnerMarksExact(attrs: seq<Attr>, mark: Mark, cfg: TargetCfg)
    ensures forall m | m in InnerMarks(attrs, mark, cfg) :: m == mark
    ensures Dead(AttrPreds(attrs), cfg) <==> mark in InnerMarks(attrs, mark, cfg)
  {
    if attrs != [] {
      InnerMarksExact(attrs[1..], mark, cfg);
      DeadConcat(if attrs[0].CfgAttr? then [attrs[0].p] else [], AttrPreds(attrs[1..]), cfg);
      if attrs[0].CfgAttr? {
        assert attrs[0].p in [attrs[0].p];
      }
    }
  }

  lemma BlockLayout(item: Item, off: nat)
    requires item.Block?
    ensures off + |PrintAttrs(item.attrs, false)| < OpenOf(item, off) < BodyOf(item, off)
    ensures LastOf(item, off) == BodyOf(item, off) + |PrintElems(item.body)|
    ensures PrintElem(Nested(item)) == PrintItem(item)
  {
  }

  lemma {:induction false} ItemMarksWithin(item: Item, off: nat, cfg: TargetCfg)
    ensures forall m | m in ItemMarks(item, off, cfg) :: Within(m, off, LastOf(item, off))
    decreases item, 0
  {
    AttrMarksExact(item.attrs, off, LastOf(item, off), cfg);
    if item.Block? {
      BlockLayout(item, off);
      InnerMarksExact(item.inner, Region(OpenOf(item, off), LastOf(item, off)), cfg);
      ElemsMarksWithin(item.body, BodyOf(item, off), cfg);
    }
  }

  lemma {:induction false} ElemMarksWithin(e: Elem, off: nat, cfg: TargetCfg)
    ensures forall m | m in ElemMarks(e, off, cfg) :: Within(m, off, off + |PrintElem(e)| - 1)
    decreases e, 1
  {
    if e.Nested? {
      ItemMarksWithin(e.item, off, cfg);
    }
  }

  lemma {:induction false} ElemsMarksWithin(elems: seq<Elem>, off: nat, cfg: TargetCfg)
    ensures forall m | m in ElemsMarks(elems, off, cfg) :: Within(m, off, off + |PrintElems(elems)| - 1)
    decreases elems, 2
  {
    if elems == [] {
    } else {
      ElemMarksWithin(elems[0], off, cfg);
      ElemsMarksWithin(elems[1..], off + |PrintElem(elems[0])|, cfg);
    }
  }

  // ---- exactness ---------------------------------------------------------

  /** Marks that keep clear of a settled stretch leave it settled, and a
      stretch inside it is settled the same way. */
  lemma SettledInside(marks: set<Mark>, more: set<Mark>, first: int, last: int, first': int, last': int,
                      gates: seq<Pred>, cfg: TargetCfg)
    requires Settled(marks, first, last, gates, cfg)
    requires first <= first' && last' <= last
    requires forall m | m in more :: Misses(m, first', last')
    ensures Settled(marks + more, first', last', gates, cfg)
  {
    if Dead(gates, cfg) {
      var m :| m in marks && (m.WholeFile? || (m.first <= first && last <= m.last));
      assert m in marks + more;
    }
  }

  /** After an item's own attributes: their marks reach from before the item's
      code to its end, or there are none. */
  lemma OwnSettled(item: Item, off: nat, gates: seq<Pred>, marks: set<Mark>, cfg: TargetCfg)
    requires Settled(marks, off, LastOf(item, off), gates, cfg)
    ensures Settled(marks + MarkSet(AttrMarks(item.attrs, off, LastOf(item, off), cfg)),
                    off + |PrintAttrs(item.attrs, false)|, LastOf(item, off), gates + AttrPreds(item.attrs), cfg)
  {
    var last := LastOf(item, off);
    var own := AttrMarks(item.attrs, off, last, cfg);
    AttrMarksExact(item.attrs, off, last, cfg);
    DeadConcat(gates, AttrPreds(item.attrs), cfg);
    if Dead(gates, cfg) {
      var m :| m in marks && (m.WholeFile? || (m.first <= off && last <= m.last));
      assert m in marks + MarkSet(own);
    } else if own != [] {
      assert own[0] in own;
      assert own[0] in marks + MarkSet(own);
    }
  }

  /** The same for a block and its inner attributes. */
  lemma InnerSettled(attrs: seq<Attr>, open: nat, last: nat, gates: seq<Pred>, marks: set<Mark>, cfg: TargetCfg)
    requires Settled(marks, open, last, gates, cfg)
    ensures Settled(marks + MarkSet(InnerMarks(attrs, Region(open, last), cfg)), open, last, gates + AttrPreds(attrs), cfg)
  {
    var inner := InnerMarks(attrs, Region(open, last), cfg);
    InnerMarksExact(attrs, Region(open, last), cfg);
    DeadConcat(gates, AttrPreds(attrs), cfg);
    if Dead(gates, cfg) {
      var m :| m in marks && (m.WholeFile? || (m.first <= open && last <= m.last));
      assert m in marks + MarkSet(inner);
    } else if Dead(AttrPreds(attrs), cfg) {
      assert Region(open, last) in marks + MarkSet(inner);
    } else {
      assert MarkSet(inner) <= {Region(open, last)};
      assert Region(open, last) !in inner;
    }
  }

  /** Every site of an item is exact under the marks around the item, settled
      on it, together with the item's own marks. */
  lemma {:induction false} ItemExact(item: Item, off: nat, gates: seq<Pred>, around: set<Mark>, cfg: TargetCfg)
    requires Settled(around, off, LastOf(item, off), gates, cfg)
    ensures forall s | s in ItemSites(item, off, gates) ::
              SiteExact(around + MarkSet(ItemMarks(item, off, cfg)), s, cfg)
    decreases item, 0
  {
    var last := LastOf(item, off);
    var start := off + |PrintAttrs(item.attrs, false)|;
    var own := gates + AttrPreds(item.attrs);
    var attrMarks := AttrMarks(item.attrs, off, last, cfg);
    OwnSettled(item, off, gates, around, cfg);
    if item.Leaf? {
      assert attrMarks + [] == attrMarks;
    } else {
      BlockExact(item, off, own, around + MarkSet(attrMarks), cfg);
      var rest := InnerMarks(item.inner, Region(OpenOf(item, off), last), cfg)
                  + ElemsMarks(item.body, BodyOf(item, off), cfg);
      MarkSetConcat(attrMarks, rest);
      assert around + MarkSet(ItemMarks(item, off, cfg)) == around + MarkSet(attrMarks) + MarkSet(rest);
    }
  }

  lemma {:induction false} BlockExact(item: Item, off: nat, own: seq<Pred>, around: set<Mark>, cfg: TargetCfg)
    requires item.Block?
    requires Settled(around, off + |PrintAttrs(item.attrs, false)|, LastOf(item, off), own, cfg)
    ensures
      var last := LastOf(item, off);
      var start := off + |PrintAttrs(item.attrs, false)|;
      var within := own + AttrPreds(item.inner);
      var marks := around + MarkSet(InnerMarks(item.inner, Region(OpenOf(item, off), last), cfg)
                                    + ElemsMarks(item.body, BodyOf(item, off), cfg));
      && SiteExact(marks, Site(start, start + |PrintHead(item)| - 1, false, own), cfg)
      && SiteExact(marks, Site(OpenOf(item, off), last, true, within), cfg)
      && forall s | s in ElemsSites(item.body, BodyOf(item, off), within) :: SiteExact(marks, s, cfg)
    decreases item.body, 3
  {
    var last := LastOf(item, off);
    var start := off + |PrintAttrs(item.attrs, false)|;
    var open, bodyOff := OpenOf(item, off), BodyOf(item, off);
    var within := own + AttrPreds(item.inner);
    var inner := InnerMarks(item.inner, Region(open, last), cfg);
    var nested := ElemsMarks(item.body, bodyOff, cfg);
    BlockLayout(item, off);
    InnerMarksExact(item.inner, Region(open, last), cfg);
    ElemsMarksWithin(item.body, bodyOff, cfg);
    MarkSetConcat(inner, nested);
    assert around + MarkSet(inner + nested) == around + MarkSet(inner) + MarkSet(nested);
    // the head: everything marked below lies past it
    SettledInside(around, MarkSet(inner + nested), start, last, start, open - 1, own, cfg);
    // the body
    SettledInside(around, {}, start, last, open, last, own, cfg);
    assert around + {} == around;
    InnerSettled(item.inner, open, last, own, around, cfg);
    var blockMarks := around + MarkSet(inner);
    if Dead(within, cfg) {
      var m :| m in blockMarks && (m.WholeFile? || (m.first <= open && last <= m.last));
      assert m in blockMarks + MarkSet(nested);
    }
    SettledInside(blockMarks, {}, open, last, bodyOff, last - 1, within, cfg);
    assert blockMarks + {} == blockMarks;
    ElemsExact(item.body, bodyOff, within, blockMarks, cfg);
  }

  lemma {:induction false} ElemExact(e: Elem, off: nat, gates: seq<Pred>, around: set<Mark>, cfg: TargetCfg)
    requires Settled(around, off, off + |PrintElem(e)| - 1, gates, cfg)
    ensures forall s | s in ElemSites(e, off, gates) ::
              SiteExact(around + MarkSet(ElemMarks(e, off, cfg)), s, cfg)
    decreases e, 1
  {
    match e {
      case Code(_) =>
        assert around + MarkSet([]) == around;
      case Nested(item) =>
        ItemExact(item, off, gates, around, cfg);
    }
  }

  lemma {:induction false} ElemsExact(elems: seq<Elem>, off: nat, gates: seq<Pred>, around: set<Mark>, cfg: TargetCfg)
    requires Settled(around, off, off + |PrintElems(elems)| - 1, gates, cfg)
    ensures forall s | s in ElemsSites(elems, off, gates) ::
              SiteExact(around + MarkSet(ElemsMarks(elems, off, cfg)), s, cfg)
    decreases elems, 2
  {
    if elems == [] {
    } else {
      var e := elems[0];
      var next := off + |PrintElem(e)|;
      var end := off + |PrintElems(elems)|;
      var head, tail := ElemMarks(e, off, cfg), ElemsMarks(elems[1..], next, cfg);
      ElemMarksWithin(e, off, cfg);
      ElemsMarksWithin(elems[1..], next, cfg);
      MarkSetConcat(head, tail);
      SettledInside(around, MarkSet(tail), off, end - 1, off, next - 1, gates, cfg);
      ElemExact(e, off, gates, around + MarkSet(tail), cfg);
      assert around + MarkSet(tail) + MarkSet(head) == around + MarkSet(head + tail);
      SettledInside(around, MarkSet(head), off, end - 1, next, end - 1, gates, cfg);
      ElemsExact(elems[1..], next, gates, around + MarkSet(head), cfg);
      assert around + MarkSet(head) + MarkSet(tail) == around + MarkSet(head + tail);
    }
  }

  /** On every stretch of a file the marks say exactly whether one of the
      predicates over it, its own, an enclosing item's or the file's, is false. */
  lemma FileExact(file: File, cfg: TargetCfg)
    ensures forall s | s in FileSites(file) :: SiteExact(MarkSet(FileMarks(file, cfg)), s, cfg)
  {
    var off := |PrintAttrs(file.inner, true)|;
    var inner := InnerMarks(file.inner, WholeFile, cfg);
    InnerMarksExact(file.inner, WholeFile, cfg);
    assert Settled(MarkSet(inner), off, off + |PrintElems(file.body)| - 1, AttrPreds(file.inner), cfg) by {
      if Dead(AttrPreds(file.inner), cfg) {
        assert WholeFile in MarkSet(inner);
      } else {
        assert WholeFile !in inner;
        assert MarkSet(inner) == {};
      }
    }
    ElemsExact(file.body, off, AttrPreds(file.inner), MarkSet(inner), cfg);
    MarkSetConcat(inner, ElemsMarks(file.body, off, cfg));
  }

  /** What a marked stretch is not: compiled, in any build of the target. */
  lemma DeadIsNotCompiled(gates: seq<Pred>, cfg: TargetCfg, b: Build)
    requires BuildOf(b, cfg) && Dead(gates, cfg)
    ensures !Compiled(gates, b)
  {
    var g :| g in gates && Value(g, cfg) == False;
    DefiniteIsRight(g, cfg, b);
  }
}
