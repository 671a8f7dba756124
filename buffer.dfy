/**
 * `CURLBuffer`: the growable, NUL-terminated receive buffer filled by the
 * libcurl write callback `receiveUniprotOutput`. The character array is the
 * buffer; `size` counts the characters received, `capacity` is the length of
 * the allocation, and the growth step is `UNIPROT_BUFFER_GROW`, which here is
 * the `grow` the buffer is created with.
 */
module ResponseBuffer {

  /**
   * The capacity after one call that receives `n` characters: one growth
   * step when the text and its terminator would not fit. That single step
   * leaves room for the terminator exactly when the new text is shorter than
   * the free space plus one step; a longer chunk would be written past the
   * allocation.
   */
  function GrownCapacity(capacity: nat, size: nat, n: nat, grow: nat): (r: nat)
    ensures r >= capacity && (r == capacity || r == capacity + grow)
    ensures size < capacity ==> (r > size + n <==> size + n < capacity + grow)
  {
    if size + n >= capacity then capacity + grow else capacity
  }

  class CurlBuffer {
    var buffer: array<char>
    var size: nat
    var capacity: nat
    const grow: nat

    /** The allocation is `capacity` long and holds the terminator at `size`. */
    ghost predicate Valid()
      reads this, buffer
    {
      buffer.Length == capacity && size < capacity && buffer[size] == '\0' && grow > 0
    }

    /** The received text. */
    ghost function Contents(): seq<char>
      reads this, buffer
      requires Valid()
    {
      buffer[..size]
    }

    /** `initCURLBuffer(buffer, UNIPROT_BUFFER_GROW)`: a zeroed allocation of
        one growth step, empty. */
    constructor Init(grow: nat)
      requires grow > 0
      ensures Valid() && fresh(buffer)
      ensures Contents() == [] && capacity == grow && this.grow == grow
    {
      buffer := new char[grow](_ => '\0');
      capacity := grow;
      size := 0;
      this.grow := grow;
      new;
      buffer[0] := '\0';
    }

    /** `resetCURLBuffer`: empty again, same allocation. */
    method Reset()
      requires Valid()
      modifies this, buffer
      ensures Valid() && Contents() == []
      ensures buffer == old(buffer) && capacity == old(capacity)
    {
      size := 0;
      buffer[0] := '\0';
    }

    /**
     * `receiveUniprotOutput`: append `passSize * passNum` characters, growing
     * the allocation by one step first when they and the terminator would not
     * fit, and return the number of characters taken. The chunk must fit
     * after that single step.
     */
    method Receive(data: seq<char>, passSize: nat, passNum: nat) returns (taken: nat)
      requires Valid()
      requires |data| == passSize * passNum
      requires size + |data| < capacity + grow
      modifies this, buffer
      ensures Valid()
      ensures taken == passSize * passNum
      ensures Contents() == old(Contents()) + data
      ensures size == old(size) + taken
      ensures capacity == GrownCapacity(old(capacity), old(size), taken, grow)
      ensures old(size) + taken >= old(capacity) ==> capacity == old(capacity) + grow && fresh(buffer)
      ensures old(size) + taken < old(capacity) ==> capacity == old(capacity) && buffer == old(buffer)
    {
      taken := passSize * passNum;
      if size + taken >= capacity {
        var grown := new char[capacity + grow];
        forall i | 0 <= i < capacity {
          grown[i] := buffer[i];
        }
        buffer := grown;
        capacity := capacity + grow;
      }
      forall i | 0 <= i < taken {
        buffer[size + i] := data[i];
      }
      size := size + taken;
      buffer[size] := '\0';
    }
  }
}
