/** `Minivec<SIZE, T>`: a list stored in a fixed array of `SIZE` slots, of
    which the first `length` are in use. It only grows, and refuses to grow
    past `SIZE`. Junctions keep their entrance and exit lists in one with
    `SIZE = 2`. */
module Minivecs {
  import opened Results

  /** The two fields of the Rust struct; `|inner|` plays the part of `SIZE`. */
  datatype MinivecRep<T> = MinivecRep(length: nat, inner: seq<T>)

  /** The length never passes the capacity. */
  type Minivec<T> = v: MinivecRep<T> | v.length <= |v.inner| witness MinivecRep(0, [])

  function Size<T>(v: Minivec<T>): nat {
    |v.inner|
  }

  /** `len`. */
  function Len<T>(v: Minivec<T>): nat {
    v.length
  }

  predicate IsFull<T>(v: Minivec<T>) {
    v.length >= |v.inner|
  }

  /** The stored elements, in the order they were pushed. */
  function Items<T>(v: Minivec<T>): seq<T> {
    v.inner[..v.length]
  }

  /** `Minivec::new`: every slot holds `fill` (Rust's `T::default()`), none
      is in use. */
  function New<T>(size: nat, fill: T): (r: Minivec<T>)
    ensures Size(r) == size
    ensures Len(r) == 0 && Items(r) == []
    ensures !IsFull(r) <==> size > 0
  {
    MinivecRep(0, seq(size, _ => fill))
  }

  /** `push`: on a full list, hands the item back and changes nothing;
      otherwise stores it in the first unused slot. */
  function Push<T>(v: Minivec<T>, item: T): (r: (Minivec<T>, Result<(), T>))
    ensures Size(r.0) == Size(v)
    ensures r.1.Err? <==> IsFull(v)
    ensures r.1.Err? ==> r.1.error == item && r.0 == v
    ensures r.1.Ok? ==> Len(r.0) == Len(v) + 1 && Items(r.0) == Items(v) + [item]
  {
    if v.length >= |v.inner| then
      (v, Err(item))
    else
      var next: Minivec<T> := MinivecRep(v.length + 1, v.inner[v.length := item]);
      assert Items(next) == Items(v) + [item];
      (next, Ok(()))
  }

  /** `index`: panics past the length, which is the precondition here. */
  function Index<T>(v: Minivec<T>, i: nat): (r: T)
    requires i < Len(v)
    ensures r in Items(v)
    ensures r == Items(v)[i]
  {
    v.inner[i]
  }

  /** The borrowing iterator: a list and the next position to read. */
  datatype MinivecIterator<T> = MinivecIterator(vec: Minivec<T>, position: nat)

  function IntoIter<T>(v: Minivec<T>): (it: MinivecIterator<T>)
    ensures it.vec == v && it.position == 0
  {
    MinivecIterator(v, 0)
  }

  /** `next`: the element at the current position and the advanced iterator,
      or `None` once the stored prefix is used up. */
  function Next<T>(it: MinivecIterator<T>): (r: Option<(T, MinivecIterator<T>)>)
    ensures r.None? <==> it.position >= Len(it.vec)
    ensures r.Some? ==> r.value.0 == Items(it.vec)[it.position]
    ensures r.Some? ==> r.value.1 == MinivecIterator(it.vec, it.position + 1)
  {
    if it.position < it.vec.length then
      Some((it.vec.inner[it.position], MinivecIterator(it.vec, it.position + 1)))
    else
      None
  }

  /** Everything the iterator yields before it returns `None`. */
  function Drain<T>(it: MinivecIterator<T>): seq<T>
    decreases Len(it.vec) - it.position
  {
    match Next(it)
    case None => []
    case Some((x, rest)) => [x] + Drain(rest)
  }

  /** The iterator yields the stored elements from its position on, in
      order, and nothing from the unused slots. */
  lemma {:induction false} DrainYieldsRest<T>(it: MinivecIterator<T>)
    requires it.position <= Len(it.vec)
    ensures Drain(it) == Items(it.vec)[it.position..]
    decreases Len(it.vec) - it.position
  {
    if it.position < Len(it.vec) {
      var rest := MinivecIterator(it.vec, it.position + 1);
      DrainYieldsRest(rest);
      assert Items(it.vec)[it.position..] == [Items(it.vec)[it.position]] + Items(it.vec)[it.position + 1..];
    }
  }

  /** Iterating a whole list yields exactly its stored prefix. */
  lemma IterYieldsItems<T>(v: Minivec<T>)
    ensures Drain(IntoIter(v)) == Items(v)
  {
    DrainYieldsRest(IntoIter(v));
  }

  /** Pushing onto a list with room puts the item at the old length and
      keeps every earlier element where it was. */
  lemma PushStoresAtEnd<T>(v: Minivec<T>, item: T)
    requires !IsFull(v)
    ensures Push(v, item).1.Ok?
    ensures Index(Push(v, item).0, Len(v)) == item
    ensures forall i :: 0 <= i < Len(v) ==> Index(Push(v, item).0, i) == Index(v, i)
  {
  }

  /** A list one short of its capacity takes one more item and then
      refuses the next. */
  lemma PushUntilFull<T>(v: Minivec<T>, item: T)
    requires Len(v) + 1 == Size(v)
    ensures Push(v, item).1.Ok?
    ensures IsFull(Push(v, item).0)
    ensures Push(Push(v, item).0, item).1 == Err(item)
  {
  }
}
