/** The paged bump allocator behind the active edges: `nsvg__nextPage`, `nsvg__resetPool`, `nsvg__alloc`. */
module MemPool {
  import opened Options

  const PAGE_SIZE := 1024

  /** `NSVGmemPage`, without the bytes themselves. */
  class MemPage {
    var size: nat
    var next: MemPage?
    ghost const index: nat           // its position in the chain of pages

    constructor (ghost index: nat)
      ensures size == 0 && next == null && this.index == index
    {
      size, next := 0, null;
      this.index := index;
    }
  }

  /** The bytes `offset .. offset + size` of a page. */
  datatype Block = Block(page: MemPage, offset: nat, size: nat)

  predicate Apart(a: Block, b: Block) {
    a.page != b.page || a.offset + a.size <= b.offset || b.offset + b.size <= a.offset
  }

  ghost predicate AllApart(blocks: seq<Block>) {
    forall i, j :: 0 <= i < j < |blocks| ==> Apart(blocks[i], blocks[j])
  }

  lemma NoneApart()
    ensures AllApart([])
  {
  }

  lemma AppendApart(blocks: seq<Block>, b: Block)
    requires AllApart(blocks) && forall c :: c in blocks ==> Apart(c, b)
    ensures AllApart(blocks + [b])
  {
  }

  /** Every page knows its position, so no page occurs twice. */
  ghost predicate Indexed(chain: seq<MemPage>) {
    forall i :: 0 <= i < |chain| ==> chain[i].index == i
  }

  ghost function Following(chain: seq<MemPage>, p: MemPage): MemPage? {
    if p.index + 1 < |chain| then chain[p.index + 1] else null
  }

  /** `chain` lists all pages from `first` on, in link order. */
  ghost predicate Chained(first: MemPage?, chain: seq<MemPage>)
    reads chain`next
  {
    && first == (if chain == [] then null else chain[0])
    && forall p :: p in chain ==> p.next == Following(chain, p)
  }

  lemma FirstPage(first: MemPage?, chain: seq<MemPage>)
    requires Indexed(chain) && Chained(first, chain)
    ensures first == null <==> chain == []
    ensures first != null ==> first in chain && first.index == 0
  {
  }

  /** Following a link visits the very next page. */
  lemma NextInChain(first: MemPage?, chain: seq<MemPage>, p: MemPage)
    requires Indexed(chain) && Chained(first, chain) && p in chain
    ensures p.next != null ==> p.next in chain && p.next.index == p.index + 1 && p.next.index < |chain|
    ensures forall q :: q in chain && (p.next == null || q.index < p.next.index) ==> q == p || q.index < p.index
  {
    assert p.next == Following(chain, p);
    forall q | q in chain ensures q.index < |chain| && chain[q.index] == q {}
  }

  class Pool {
    var pages: MemPage?
    var curpage: MemPage?
    ghost var chain: seq<MemPage>    // every page there is
    ghost var space: set<MemPage>    // contains them all
    ghost var given: seq<Block>      // every block handed out since the last reset

    /** Every block handed out lies in the used part of its page and overlaps no other; pages after the
        current one are unused. */
    ghost predicate Valid()
      reads this, space
    {
      && (forall p :: p in chain ==> p in space)
      && Indexed(chain) && Chained(pages, chain)
      && (if curpage == null then chain == [] else curpage in chain)
      && (forall p :: p in chain ==> p.size <= PAGE_SIZE && (p.index > curpage.index ==> p.size == 0))
      && (forall b :: b in given ==> b.page in chain && b.offset + b.size <= b.page.size)
      && AllApart(given)
    }

    constructor ()
      ensures Valid() && chain == [] && space == {} && given == []
    {
      pages, curpage := null, null;
      chain, space, given := [], {}, [];
    }

    /** `nsvg__nextPage(r, r->curpage)`: the next page of the chain, or a new one at its end. Either way it
        is unused and all pages stay in the chain. */
    method NextPage() returns (p: MemPage)
      requires Valid()
      modifies this`pages, this`chain, this`space, space`next
      ensures Indexed(chain) && Chained(pages, chain) && p in chain && forall q :: q in chain ==> q in space
      ensures if fresh(p) then chain == old(chain) + [p] && space == old(space) + {p}
              else chain == old(chain) && space == old(space)
      ensures p.size == 0 && p.index == if old(chain) == [] then 0 else curpage.index + 1
    {
      if curpage != null && curpage.next != null {
        p := curpage.next;
        return;
      }
      p := new MemPage(|chain|);
      if curpage != null {
        curpage.next := p;
      } else {
        pages := p;
      }
      chain, space := chain + [p], space + {p};
    }

    /** `nsvg__resetPool`: every page is kept and becomes unused. */
    method Reset()
      requires Valid()
      modifies this`curpage, this`given, space`size
      ensures Valid() && chain == old(chain) && pages == old(pages) && given == []
    {
      hide AllApart, Chained, Indexed;
      ghost var all := chain;
      FirstPage(pages, all);
      var p := pages;
      while p != null
        invariant p != null ==> p in all && p.index < |all|
        invariant Chained(pages, all)
        invariant forall q :: q in all && (p == null || q.index < p.index) ==> q.size == 0
        decreases if p == null then 0 else |all| - p.index
      {
        NextInChain(pages, all, p);
        p.size := 0;
        p := p.next;
      }
      curpage := pages;
      given := [];
      NoneApart();
    }

    /** The step of `nsvg__alloc` that makes room: moves on to the next page. */
    method Advance()
      requires Valid()
      modifies this`pages, this`curpage, this`chain, this`space, space`next
      ensures Valid() && given == old(given)
      ensures curpage != null && curpage.size == 0
      ensures if fresh(curpage) then chain == old(chain) + [curpage] && space == old(space) + {curpage}
              else chain == old(chain) && space == old(space)
    {
      hide AllApart;
      curpage := NextPage();
    }

    /** The bump: the next `size` bytes of the current page. */
    method Take(size: nat) returns (block: Block)
      requires Valid() && curpage != null && curpage.size + size <= PAGE_SIZE
      modifies this`given, curpage`size
      ensures Valid() && block.size == size && given == old(given) + [block]
    {
      hide AllApart;
      block := Block(curpage, curpage.size, size);
      AppendApart(given, block);
      curpage.size := curpage.size + size;
      given := given + [block];
    }

    /** `nsvg__alloc`: a block that overlaps none of those handed out before, or none at all when it would
        be larger than a page. No page is ever lost from the chain. */
    method Alloc(size: nat) returns (b: Option<Block>)
      requires Valid()
      modifies this, space
      ensures Valid() && old(chain) <= chain && old(space) <= space && fresh(space - old(space))
      ensures b.None? <==> size > PAGE_SIZE
      ensures given == old(given) + (if b.None? then [] else [b.value])
      ensures b.Some? ==> b.value.size == size
    {
      if size > PAGE_SIZE {
        return None;
      }
      if curpage == null || curpage.size + size > PAGE_SIZE {
        Advance();
      }
      var block := Take(size);
      b := Some(block);
    }
  }
}
