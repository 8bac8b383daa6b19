/** Pools of objects with a bitmap of free ones: netmap_obj_malloc and netmap_obj_free, and their uses for lists of
    extra buffers and for the buffers of a ring.

    A 32-bit word of the bitmap is modelled by its bits, the lowest first. */
module BitmapPool {
  import opened KringModel

  type Word = w: seq<bool> | |w| == 32 witness seq(32, _ => false)

  /** Bit j of word i is set exactly when object 32 * i + j is free. */
  ghost predicate Shows(bitmap: seq<Word>, free: set<nat>) {
    forall i, j {:trigger bitmap[i][j]} :: 0 <= i < |bitmap| && 0 <= j < 32 ==>
      (bitmap[i][j] <==> 32 * i + j in free)
  }

  /** No object in the words before start is free. */
  ghost predicate NoneBefore(free: set<nat>, start: nat) {
    forall b :: b in free ==> 32 * start <= b
  }

  lemma ShowsSet(bitmap: seq<Word>, free: set<nat>, i: nat, j: nat, v: bool)
    requires Shows(bitmap, free) && i < |bitmap| && j < 32
    ensures var word: Word := bitmap[i][j := v];
            Shows(bitmap[i := word], if v then free + {32 * i + j} else free - {32 * i + j})
  {
  }

  lemma InWord(bitmap: seq<Word>, free: set<nat>, i: nat)
    requires Shows(bitmap, free) && i < |bitmap|
    ensures forall b :: b in free && 32 * i <= b < 32 * i + 32 ==> bitmap[i][b - 32 * i]
  {
    forall b | b in free && 32 * i <= b < 32 * i + 32 ensures bitmap[i][b - 32 * i] {
      assert bitmap[i][b - 32 * i] <==> 32 * i + (b - 32 * i) in free;
    }
  }

  ghost function Range(lo: nat, hi: nat): (r: set<nat>)
    ensures forall b :: b in r <==> lo <= b < hi
    ensures |r| == if lo <= hi then hi - lo else 0
  {
    if hi <= lo then {} else Range(lo, hi - 1) + {hi - 1}
  }

  /** The numbers of the bits that are set. */
  ghost function SetBits(bitmap: seq<Word>): set<nat> {
    set b | 0 <= b < 32 * |bitmap| && bitmap[b / 32][b % 32]
  }

  lemma SubsetSize(a: set<nat>, b: set<nat>)
    requires a <= b
    ensures |a| <= |b|
  {
    assert b == a + (b - a);
  }

  lemma ShownIs(bitmap: seq<Word>, free: set<nat>)
    requires Shows(bitmap, free) && forall b :: b in free ==> b < 32 * |bitmap|
    ensures SetBits(bitmap) == free
  {
    forall b: nat | b < 32 * |bitmap| ensures bitmap[b / 32][b % 32] <==> b in free {
      assert bitmap[b / 32][b % 32] <==> 32 * (b / 32) + b % 32 in free;
    }
  }

  /** The bitmap follows from the set. */
  lemma ShowsUnique(a: seq<Word>, b: seq<Word>, free: set<nat>)
    requires Shows(a, free) && Shows(b, free) && |a| == |b|
    ensures a == b
  {
    forall i | 0 <= i < |a| ensures a[i] == b[i] {
      assert forall j :: 0 <= j < 32 ==> a[i][j] == b[i][j];
    }
  }

  /** Overwriting the first word of a full bitmap. */
  lemma Overwritten(words: seq<Word>, total: nat, first: Word)
    requires Shows(words, Range(0, total)) && 32 <= total && words != [] && forall j :: 0 <= j < 32 ==> first[j] == (j >= 2)
    ensures Shows(words[0 := first], Range(2, total))
  {
  }

  /** With fewer than 32 buffers, bits of buffers that do not exist are set too. */
  lemma TooMany(words: seq<Word>, total: nat, first: Word)
    requires 2 <= total < 32 && words != [] && forall j :: 0 <= j < 32 ==> first[j] == (j >= 2)
    ensures total - 2 < |SetBits(words[0 := first])|
  {
    var bits := SetBits(words[0 := first]);
    forall b: nat | 2 <= b <= total ensures b in bits {
      assert b / 32 == 0 && b % 32 == b;
    }
    SubsetSize(Range(2, total + 1), bits);
  }

  /** Both cases. */
  lemma FirstWord(words: seq<Word>, total: nat, first: Word)
    requires Shows(words, Range(0, total)) && 4 <= total && |words| == (total + 31) / 32
    requires forall j :: 0 <= j < 32 ==> first[j] == (j >= 2)
    ensures |Range(0, total)| - 2 == |SetBits(words[0 := first])| <==> 32 <= total
    ensures 32 <= total ==> Shows(words[0 := first], Range(2, total)) && |Range(2, total)| == |Range(0, total)| - 2
  {
    if 32 <= total {
      Overwritten(words, total, first);
      ShownIs(words[0 := first], Range(2, total));
    } else {
      TooMany(words, total, first);
    }
  }

  /* ---- lists of buffers, 0 being the end ---- */

  ghost predicate Chain(links: seq<nat>, head: nat, list: seq<nat>)
    decreases list
  {
    if list == [] then head == 0
    else head == list[0] < |links| && Chain(links, links[head], list[1..])
  }

  ghost predicate Distinct(list: seq<nat>) {
    forall i, j :: 0 <= i < j < |list| ==> list[i] != list[j]
  }

  ghost function Elems(list: seq<nat>): set<nat> {
    set b | b in list
  }

  lemma {:induction false} ChainSet(links: seq<nat>, head: nat, list: seq<nat>, b: nat, v: nat)
    requires Chain(links, head, list) && b < |links| && b !in list
    ensures Chain(links[b := v], head, list)
    decreases list
  {
    if list != [] { ChainSet(links, links[head], list[1..], b, v); }
  }

  /** These buffers were taken from the free ones, and linked in this order. */
  ghost predicate Taken(links: seq<nat>, links0: seq<nat>, head: nat, list: seq<nat>, free: set<nat>, free0: set<nat>) {
    && Chain(links, head, list) && Distinct(list) && Elems(list) <= free0 && free == free0 - Elems(list)
    && |links| == |links0| && forall b :: 0 <= b < |links| && b !in list ==> links[b] == links0[b]
  }

  lemma TakenMore(links: seq<nat>, links0: seq<nat>, head: nat, list: seq<nat>, free: set<nat>, free0: set<nat>, b: nat)
    requires Taken(links, links0, head, list, free, free0) && b in free && b < |links|
    ensures Taken(links[b := head], links0, b, [b] + list, free - {b}, free0)
  {
    ChainSet(links, head, list, b, head);
    assert ([b] + list)[1..] == list;
    assert Elems([b] + list) == Elems(list) + {b};
  }

  /** A list of different buffers that are in use; 0 and 1 are never on a list. */
  ghost predicate Loaned(links: seq<nat>, head: nat, list: seq<nat>, free: set<nat>, total: nat) {
    && Chain(links, head, list) && Distinct(list)
    && forall b :: b in list ==> 2 <= b < total && b !in free
  }

  lemma InUseNext(links: seq<nat>, head: nat, list: seq<nat>, free: set<nat>, v: nat)
    requires Loaned(links, head, list, free, |links|) && head != 0
    ensures list != [] && list[0] == head && Elems(list) == Elems(list[1..]) + {head} && head !in free
    ensures Loaned(links[head := v], links[head], list[1..], free + {head}, |links|)
  {
    assert forall b :: b in list[1..] ==> b in list;
    assert list == [list[0]] + list[1..];
    ChainSet(links, links[head], list[1..], head, v);
  }

  lemma {:induction false} Bounded(s: set<nat>, n: nat)
    requires forall b :: b in s ==> b < n
    ensures |s| <= n
  {
    if n == 0 {
      assert s == {};
    } else {
      Bounded(s - {n - 1}, n - 1);
    }
  }

  /* ---- the buffers of a ring ---- */

  /** The first n slots have got different buffers from the free ones. */
  ghost predicate Filled(slots: seq<Slot>, n: nat, free: set<nat>, free0: set<nat>, size: nat) {
    && n <= |slots| && free == free0 - Bufs(slots, n) && Bufs(slots, n) <= free0
    && (forall i {:trigger slots[i]} :: 0 <= i < n ==> slots[i].len == size && slots[i].flags == 0)
    && (forall i, j {:trigger slots[i], slots[j]} :: 0 <= i < j < n ==> slots[i].bufIdx != slots[j].bufIdx)
  }

  ghost function Bufs(slots: seq<Slot>, n: nat): (r: set<nat>)
    requires n <= |slots|
    ensures forall i {:trigger slots[i]} :: 0 <= i < n ==> slots[i].bufIdx in r
  {
    if n == 0 then {} else Bufs(slots, n - 1) + {slots[n - 1].bufIdx}
  }

  lemma {:induction false} BufsKept(slots: seq<Slot>, n: nat, m: nat, s: Slot)
    requires n <= m < |slots|
    ensures Bufs(slots[m := s], n) == Bufs(slots, n)
  {
    if n > 0 { BufsKept(slots, n - 1, m, s); }
  }

  lemma FilledMore(slots: seq<Slot>, n: nat, free: set<nat>, free0: set<nat>, size: nat, b: nat)
    requires Filled(slots, n, free, free0, size) && n < |slots| && b in free
    ensures Filled(slots[n := Slot(b, size, 0)], n + 1, free - {b}, free0, size)
  {
    BufsKept(slots, n, n, Slot(b, size, 0));
  }

  lemma FilledLess(slots: seq<Slot>, n: nat, free: set<nat>, free0: set<nat>, size: nat)
    requires Filled(slots, n + 1, free, free0, size)
    ensures slots[n].bufIdx in free0 - free
    ensures Filled(slots, n, free + {slots[n].bufIdx}, free0, size) == true
  {
    NotAgain(slots, n, n);
  }

  lemma {:induction false} NotAgain(slots: seq<Slot>, n: nat, k: nat)
    requires k <= n < |slots|
    requires forall i, j {:trigger slots[i], slots[j]} :: 0 <= i < j <= n ==> slots[i].bufIdx != slots[j].bufIdx
    ensures slots[n].bufIdx !in Bufs(slots, k)
  {
    if k > 0 { NotAgain(slots, n, k - 1); }
  }

  lemma FilledNone(slots: seq<Slot>, free: set<nat>, free0: set<nat>, size: nat)
    requires Filled(slots, 0, free, free0, size)
    ensures free == free0
  {
  }

  datatype Result = Got(index: nat) | Nothing

  class Pool {
    const objtotal: nat
    const objsize: nat
    const bitmap: array<Word>
    var objfree: nat
    /** The first word of each object, where lists of buffers keep their links. */
    const links: array<nat>
    /** The free objects. */
    ghost var free: set<nat>

    ghost predicate Shape() {
      bitmap.Length == (objtotal + 31) / 32
    }

    /** objfree is the number of set bits, and they stand for existing objects. */
    ghost predicate Valid()
      reads this, bitmap
    {
      && Shape() && Shows(bitmap[..], free) && objfree == |free|
      && forall b :: b in free ==> b < objtotal
    }

    /** netmap_finalize_obj_allocator with all clusters allocated: all objects are free. */
    constructor (total: nat, size: nat)
      ensures Valid() && objtotal == total && objsize == size && free == Range(0, total)
      ensures links.Length == total && fresh(bitmap) && fresh(links)
    {
      objtotal, objsize := total, size;
      bitmap := new Word[(total + 31) / 32](i => seq(32, j => 32 * i + j < total));
      links := new nat[total](_ => 0);
      objfree, free := total, Range(0, total);
    }

    /** The end of netmap_mem_finalize_all for the buffer pool: buffers 0 and 1 are set aside by overwriting the
        first word.  The count of free buffers is right exactly when there are at least 32 of them. */
    method SetAside()
      requires Valid() && free == Range(0, objtotal) && 4 <= objtotal
      modifies this, bitmap
      ensures objfree == |SetBits(bitmap[..])| <==> 32 <= objtotal
      ensures 32 <= objtotal ==> Valid() && free == Range(2, objtotal)
    {
      var first: Word := seq(32, j => j >= 2);
      FirstWord(bitmap[..], objtotal, first);
      SetFirst(first);
      objfree, free := objfree - 2, Range(2, objtotal);
    }

    method SetFirst(w: Word)
      requires 0 < bitmap.Length
      modifies bitmap
      ensures bitmap[..] == old(bitmap[..])[0 := w]
    {
      bitmap[0] := w;
    }

    /** The lowest set bit of a word that has one. */
    static method LowestBit(cur: Word) returns (j: nat)
      requires exists b :: 0 <= b < 32 && cur[b]
      ensures j < 32 && cur[j] && forall b :: 0 <= b < j ==> !cur[b]
    {
      j := 0;
      while !cur[j]
        invariant j < 32 && forall b :: 0 <= b < j ==> !cur[b]
        decreases 32 - j
      {
        j := j + 1;
      }
    }

    /** netmap_obj_malloc: the lowest free object from the hint on; every object has an address. */
    method Malloc(len: nat, start: nat) returns (r: Result, start': nat)
      requires Valid()
      modifies this, bitmap
      ensures Valid()
      ensures r.Nothing? <==> objsize < len || forall b :: b in old(free) ==> b < 32 * start
      ensures r.Nothing? ==> free == old(free)
      ensures r.Got? ==> r.index in old(free) && free == old(free) - {r.index} && 32 * start <= r.index
      ensures r.Got? ==> forall b :: b in old(free) && 32 * start <= b ==> r.index <= b
      ensures r.Got? ==> start' == r.index / 32 && (NoneBefore(old(free), start) ==> NoneBefore(free, start'))
    {
      r, start' := Nothing, start;
      if len > objsize { return; }
      if objfree == 0 { return; }
      var i := start;
      while i < bitmap.Length
        invariant start <= i && Valid() && free == old(free)
        invariant forall b :: b in free && 32 * start <= b ==> 32 * i <= b
      {
        var cur := bitmap[i];
        InWord(bitmap[..], free, i);
        if forall b :: 0 <= b < 32 ==> !cur[b] {
          i := i + 1;
        } else {
          var j := LowestBit(cur);
          ghost var words := bitmap[..];
          ShowsSet(words, free, i, j, false);
          var next: Word := cur[j := false];
          bitmap[i] := next;
          assert bitmap[..] == words[i := next];
          objfree := objfree - 1;
          free := free - {32 * i + j};
          return Got(32 * i + j), i;
        }
      }
      start' := i;
    }

    /** netmap_obj_free: refuses an index out of range and an object that is free already. */
    method Free(b: nat) returns (error: bool)
      requires Valid()
      modifies this, bitmap
      ensures Valid() && (error <==> objtotal <= b || b in old(free))
      ensures free == if error then old(free) else old(free) + {b}
    {
      if b >= objtotal { return true; }
      var i, j := b / 32, b % 32;
      var cur := bitmap[i];
      if cur[j] {
        return true;
      }
      ghost var words := bitmap[..];
      ShowsSet(words, free, i, j, true);
      var next: Word := cur[j := true];
      bitmap[i] := next;
      assert bitmap[..] == words[i := next];
      objfree := objfree + 1;
      free := free + {b};
      error := false;
    }

    /** One turn of the loop of netmap_extra_alloc. */
    method TakeOne(cur: nat, pos: nat, ghost list: seq<nat>, ghost links0: seq<nat>, ghost free0: set<nat>)
      returns (more: bool, head: nat, pos': nat, ghost list': seq<nat>)
      requires Valid() && links.Length == objtotal && NoneBefore(free, pos)
      requires Taken(links[..], links0, cur, list, free, free0)
      modifies this, bitmap, links
      ensures Valid() && NoneBefore(free, pos') && (more <==> 0 < old(objfree))
      ensures objfree == (if more then old(objfree) - 1 else old(objfree)) && |list'| == if more then |list| + 1 else |list|
      ensures Taken(links[..], links0, head, list', free, free0)
    {
      var r;
      r, pos' := Malloc(objsize, pos);
      more, head, list' := r.Got?, cur, list;
      if more {
        head, list' := r.index, [r.index] + list;
        TakenMore(links[..], links0, cur, list, free + {head}, free0, head);
        assert free + {head} - {head} == free;
        SetLink(head, cur);
      }
    }

    method SetLink(i: nat, next: nat)
      requires i < links.Length
      modifies links
      ensures links[..] == old(links[..])[i := next]
    {
      links[i] := next;
    }

    /** netmap_extra_alloc: a list of as many buffers as there are, up to n, linked through their first words. */
    method ExtraAlloc(n: nat) returns (head: nat, count: nat, ghost list: seq<nat>)
      requires Valid() && links.Length == objtotal
      modifies this, bitmap, links
      ensures Valid() && count == |list| == (if n < old(objfree) then n else old(objfree))
      ensures Taken(links[..], old(links[..]), head, list, free, old(free))
    {
      var pos: nat := 0;
      head, count, list := 0, 0, [];
      while count < n
        invariant Valid() && count == |list| <= n && NoneBefore(free, pos) && objfree == old(objfree) - count
        invariant Taken(links[..], old(links[..]), head, list, free, old(free))
      {
        var more;
        more, head, pos, list := TakeOne(head, pos, list, old(links[..]), old(free));
        if !more {
          return;
        }
        count := count + 1;
      }
    }

    /** netmap_extra_free, which ends whatever the links are.  When they form a list of buffers in use, all are
        freed. */
    method ExtraFree(start: nat, ghost list: seq<nat>) returns (head: nat)
      requires Valid() && links.Length == objtotal
      modifies this, bitmap, links
      ensures Valid() && old(free) <= free
      ensures old(InUse(start, list)) ==> head == 0 && free == old(free) + Elems(list)
    {
      head := start;
      ghost var good, rest := InUse(start, list), list;
      while head >= 2 && head < objtotal
        invariant Valid() && old(free) <= free
        invariant good ==> InUse(head, rest) && free + Elems(rest) == old(free) + Elems(list)
        decreases objtotal - |free|
      {
        var cur := head;
        head := links[cur];
        if good { InUseNext(links[..], cur, rest, free, 0); }
        ghost var before := links[..];
        links[cur] := 0;
        assert links[..] == before[cur := 0];
        var error := Free(cur);
        if error { break; }
        Bounded(free, objtotal);
        if good { rest := rest[1..]; }
      }
    }

    /** head starts a list of these buffers, none of them free or reserved. */
    ghost predicate InUse(head: nat, list: seq<nat>)
      reads this`free, links
    {
      Loaned(links[..], head, list, free, objtotal)
    }

    /** Freeing the list that was just allocated restores bitmap and count. */
    method ExtraRoundTrip(n: nat) returns (count: nat)
      requires Valid() && links.Length == objtotal && forall b :: b in free ==> 2 <= b
      modifies this, bitmap, links
      ensures Valid() && count == (if n < old(objfree) then n else old(objfree))
      ensures free == old(free) && objfree == old(objfree) && bitmap[..] == old(bitmap[..])
    {
      var head;
      ghost var list;
      head, count, list := ExtraAlloc(n);
      ghost var taken := free;
      assert forall b :: b in list ==> b in Elems(list);
      assert InUse(head, list);
      var end := ExtraFree(head, list);
      assert free == taken + Elems(list) == old(free);
      ShowsUnique(bitmap[..], old(bitmap[..]), free);
    }

    /** One turn of the loop of netmap_new_bufs. */
    method FillOne(slots: array<Slot>, i: nat, pos: nat, ghost free0: set<nat>) returns (more: bool, pos': nat)
      requires Valid() && i < slots.Length && NoneBefore(free, pos) && Filled(slots[..], i, free, free0, objsize)
      modifies this, bitmap, slots
      ensures Valid() && NoneBefore(free, pos') && (more <==> 0 < old(objfree))
      ensures objfree == if more then old(objfree) - 1 else old(objfree)
      ensures Filled(slots[..], if more then i + 1 else i, free, free0, objsize)
    {
      var r;
      r, pos' := Malloc(objsize, pos);
      more := r.Got?;
      if more {
        ghost var before := slots[..];
        FilledMore(before, i, free + {r.index}, free0, objsize, r.index);
        slots[i] := Slot(r.index, objsize, 0);
        assert slots[..] == before[i := Slot(r.index, objsize, 0)] && free + {r.index} - {r.index} == free;
      }
    }

    /** The loop of netmap_new_bufs: stops when there are no more buffers. */
    method FillSlots(slots: array<Slot>) returns (i: nat)
      requires Valid()
      modifies this, bitmap, slots
      ensures Valid() && i == (if slots.Length <= old(objfree) then slots.Length else old(objfree))
      ensures Filled(slots[..], i, free, old(free), objsize)
    {
      var pos: nat := 0;
      i := 0;
      while i < slots.Length
        invariant i <= slots.Length && Valid() && NoneBefore(free, pos) && objfree == old(objfree) - i
        invariant Filled(slots[..], i, free, old(free), objsize)
      {
        var more;
        more, pos := FillOne(slots, i, pos, old(free));
        if !more {
          return;
        }
        i := i + 1;
      }
    }

    /** netmap_new_bufs: a buffer for each slot, or none at all. */
    method NewBufs(slots: array<Slot>) returns (ok: bool)
      requires Valid()
      modifies this, bitmap, slots
      ensures Valid() && (ok <==> slots.Length <= old(objfree))
      ensures ok ==> Filled(slots[..], slots.Length, free, old(free), objsize)
      ensures !ok ==> free == old(free) && forall i :: 0 <= i < slots.Length ==> slots[i] == Slot(0, 0, 0)
    {
      var i := FillSlots(slots);
      ok := i == slots.Length;
      if !ok {
        Undo(slots, i, old(free));
      }
    }

    /** The clean-up: free the buffers of the first n slots, in reverse order, and clear all slots. */
    method Undo(slots: array<Slot>, n: nat, ghost free0: set<nat>)
      requires Valid() && n <= slots.Length && Filled(slots[..], n, free, free0, objsize)
      requires forall b :: b in free0 ==> b < objtotal
      modifies this, bitmap, slots
      ensures Valid() && free == free0 && forall i :: 0 <= i < slots.Length ==> slots[i] == Slot(0, 0, 0)
    {
      var i := n;
      while i > 0
        invariant 0 <= i <= n && Valid() && Filled(slots[..], i, free, free0, objsize) == true
        modifies this, bitmap
      {
        i := i - 1;
        FilledLess(slots[..], i, free, free0, objsize);
        var error := Free(slots[i].bufIdx);
      }
      FilledNone(slots[..], free, free0, objsize);
      Zero(slots);
    }

    static method Zero(slots: array<Slot>)
      modifies slots
      ensures forall i :: 0 <= i < slots.Length ==> slots[i] == Slot(0, 0, 0)
    {
      forall j | 0 <= j < slots.Length {
        slots[j] := Slot(0, 0, 0);
      }
    }
  }
}
