/**
 * The in-memory ring of samples (internal/storage/memory.go). Its slices share
 * one backing array, and GetAll hands them out without copying.
 */
module Ring {
  import opened Sequences

  /** A Go slice: the cells off, ..., off+len-1 of a backing array, with room up to the array's end. */
  datatype Slice<T> = Nil | View(cells: array<T>, off: nat, len: nat)

  function Len<T>(s: Slice<T>): nat { if s.Nil? then 0 else s.len }

  ghost predicate Fits<T>(s: Slice<T>) { s.View? ==> s.off + s.len <= s.cells.Length }

  /** The elements a holder of the slice sees now. */
  ghost function Elements<T>(s: Slice<T>): seq<T>
    requires Fits(s)
    reads if s.View? then {s.cells} else {}
  {
    if s.Nil? then [] else s.cells[s.off..s.off + s.len]
  }

  /** A slice once handed out, and what it held then. */
  datatype Snapshot<T> = Snapshot(slice: Slice<T>, elements: seq<T>)

  class MemoryStore<T(0)> {
    var data: Slice<T>
    const max: nat
    /** Every sample saved, oldest first, and every slice ever returned by GetAll. */
    ghost var saved: seq<T>
    ghost var handedOut: seq<Snapshot<T>>

    ghost function Arrays(): set<array<T>>
      reads this
    {
      (if data.View? then {data.cells} else {})
      + set n | n in handedOut && n.slice.View? :: n.slice.cells
    }

    /** A slice handed out lies within the part of its array that later appends will not touch. */
    ghost predicate Settled(n: Snapshot<T>)
      reads this, if n.slice.View? then {n.slice.cells} else {}
    {
      && Fits(n.slice) && Elements(n.slice) == n.elements
      && (n.slice.View? && data.View? && n.slice.cells == data.cells ==>
            n.slice.off + n.slice.len <= data.off + data.len)
    }

    ghost predicate Valid()
      reads this, Arrays()
    {
      && max > 0
      && Fits(data) && Elements(data) == LastN(saved, max)
      && forall n :: n in handedOut ==> Settled(n)
    }

    constructor ()
      ensures Valid() && max == 300 && saved == [] && handedOut == []
    {
      data, max := Nil, 300;
      saved, handedOut := [], [];
    }

    /**
     * After any number of saves the ring holds the last max samples, and every
     * slice handed out before still holds what it held when it was returned.
     */
    method Save(p: T)
      requires Valid()
      modifies this, Arrays()
      ensures Valid() && fresh(Arrays() - old(Arrays()))
      ensures saved == old(saved) + [p] && handedOut == old(handedOut)
      ensures Elements(data) == LastN(old(saved) + [p], max)
      ensures forall n :: n in old(handedOut) ==> Fits(n.slice) && Elements(n.slice) == n.elements
    {
      LastNSlides(saved, p, max);
      if Len(data) >= max {
        data := View(data.cells, data.off + 1, data.len - 1);
      }
      ghost var kept := Elements(data);
      assert kept + [p] == LastN(saved + [p], max);
      Append(p);
      saved := saved + [p];
    }

    /** append(m.data, p): in place past the end while there is room, else into a larger copy. */
    method Append(p: T)
      requires Fits(data) && forall n :: n in handedOut ==> Settled(n)
      modifies this, Arrays()
      ensures Fits(data) && Elements(data) == old(Elements(data)) + [p]
      ensures forall n :: n in handedOut ==> Settled(n)
      ensures fresh(Arrays() - old(Arrays()))
      ensures saved == old(saved) && handedOut == old(handedOut)
    {
      if data.View? && data.off + data.len < data.cells.Length {
        data.cells[data.off + data.len] := p;
        data := View(data.cells, data.off, data.len + 1);
      } else {
        var size: nat :| Len(data) < size;  // how much larger is the runtime's choice
        var grown := Copied(size);
        grown[Len(data)] := p;
        data := View(grown, 0, Len(data) + 1);
      }
    }

    method Copied(size: nat) returns (grown: array<T>)
      requires Fits(data) && Len(data) < size
      ensures fresh(grown) && grown.Length == size && grown[..Len(data)] == Elements(data)
    {
      grown := new T[size];
      forall i | 0 <= i < Len(data) { grown[i] := data.cells[data.off + i]; }
    }

    method GetAll() returns (s: Slice<T>)
      requires Valid()
      modifies `handedOut
      ensures Valid() && Arrays() == old(Arrays())
      ensures Fits(s) && Elements(s) == LastN(saved, max)
      ensures handedOut == old(handedOut) + [Snapshot(s, Elements(s))]
    {
      s := data;
      handedOut := handedOut + [Snapshot(s, Elements(s))];
    }
  }
}
