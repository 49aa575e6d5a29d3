/** The bounded character buffer of framework/log/include/FixBuffer.hpp. */
module FixedBuffers {

  const SMALL_BUFFER := 4000
  const LARGE_BUFFER := 4000 * 1000

  /** What `append` leaves: the text is taken only if strictly more room than its length is left. */
  function Bounded(content: seq<char>, text: seq<char>, size: nat): seq<char> {
    if size - |content| > |text| then content + text else content
  }

  /** An empty buffer takes what is shorter than itself. */
  lemma EmptyTakes(text: seq<char>, size: nat)
    ensures Bounded([], text, size) == if |text| < size then text else []
  {
    assert [] + text == text;
  }

  class FixedBuffer {
    const data_: array<char>
    var cursor_: nat  // pcurrent_ - data_

    ghost predicate Valid()
      reads this
    {
      cursor_ <= data_.Length
    }

    ghost function Contents(): (s: seq<char>)
      reads this, data_
      requires Valid()
    {
      data_[..cursor_]
    }

    constructor (size: nat)
      ensures Valid() && fresh(data_) && data_.Length == size
      ensures Contents() == []
    {
      data_ := new char[size];
      cursor_ := 0;
    }

    function GetLeftBufferSize(): (n: nat)
      reads this, data_
      requires Valid()
      ensures n + |Contents()| == data_.Length
    {
      data_.Length - cursor_
    }

    method Append(text: seq<char>)
      requires Valid()
      modifies this`cursor_, data_
      ensures Valid()
      ensures Contents() == Bounded(old(Contents()), text, data_.Length)
      ensures Contents() == if data_.Length - old(cursor_) > |text| then old(Contents()) + text else old(Contents())
    {
      if GetLeftBufferSize() > |text| {
        forall k | 0 <= k < |text| {
          data_[cursor_ + k] := text[k];
        }
        cursor_ := cursor_ + |text|;
        assert data_[..cursor_] == old(data_[..cursor_]) + text;
      }
    }

    /** Takes over `len` characters written directly at the cursor. */
    method AddCurrentPtr(len: nat)
      requires Valid() && cursor_ + len <= data_.Length
      modifies this`cursor_
      ensures Valid()
      ensures Contents() == old(Contents()) + data_[old(cursor_)..old(cursor_) + len]
    {
      cursor_ := cursor_ + len;
    }

    method Reset()
      requires Valid()
      modifies this`cursor_
      ensures Valid() && Contents() == []
    {
      cursor_ := 0;
    }
  }
}
