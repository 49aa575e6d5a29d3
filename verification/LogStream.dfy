/**
 * The log line of framework/log/src/LogStream.cpp: a sequence of insertions into
 * one small fixed buffer, each guarded by its own space check.
 */
module LogStreams {
  import opened Common
  import opened Printing
  import opened FixedBuffers

  const MAX_NUMERIC := 32

  /** One insertion.  `short` is widened to `int` and `float` to `double` before it gets here. */
  datatype Item =
    | Bool(b: bool)
    | Integer(t: IntType, v: int)
    | Pointer(p: nat)
    | Double(formatted: string)         // the text snprintf("%.12g") produced
    | Character(c: char)
    | CString(str: Option<string>)      // None is a null pointer
    | Str(s: string)

  /** What the C++ types, and the contract assumed of snprintf, guarantee of an item. */
  predicate WellTyped(item: Item) {
    match item
    case Integer(t, v) => InRange(t, v)
    case Pointer(p) => p < 0x1_0000_0000_0000_0000
    case Double(text) => |text| < MAX_NUMERIC
    case _ => true
  }

  function Text(item: Item): string {
    match item
    case Bool(b) => if b then "true " else "false"
    case Integer(_, v) => Decimal(v)
    case Pointer(p) => "0x" + Numeral(p, 16)
    case Double(text) => text
    case Character(c) => [c]
    case CString(s) => if s.Some? then s.value else "(null)"
    case Str(s) => s
  }

  predicate Numeric(item: Item) {
    item.Integer? || item.Pointer? || item.Double?
  }

  /** The space check: numbers want 32 free characters, text one more than its length. */
  predicate Fits(content: string, item: Item) {
    if Numeric(item) then SMALL_BUFFER - |content| >= MAX_NUMERIC
    else SMALL_BUFFER - |content| > |Text(item)|
  }

  function Insert(content: string, item: Item): string {
    if Fits(content, item) then content + Text(item) else content
  }

  // ---- Whole lines ------------------------------------------------------------

  function Line(content: string, items: seq<Item>): string
    decreases items
  {
    if items == [] then content else Line(Insert(content, items[0]), items[1..])
  }

  /** The texts of the items that passed their check, in order. */
  function Kept(content: string, items: seq<Item>): seq<string>
    decreases items
  {
    if items == [] then []
    else (if Fits(content, items[0]) then [Text(items[0])] else []) +
         Kept(Insert(content, items[0]), items[1..])
  }

  lemma TextLength(item: Item)
    requires WellTyped(item) && Numeric(item)
    ensures |Text(item)| < MAX_NUMERIC
  {
    match item
    case Integer(t, v) => DecimalLength(t, v);
    case Pointer(p) => HexLength(p);
    case Double(_) =>
  }

  lemma InsertBound(content: string, item: Item)
    requires |content| < SMALL_BUFFER && WellTyped(item)
    ensures |Insert(content, item)| < SMALL_BUFFER
  {
    if Numeric(item) {
      TextLength(item);
    }
  }

  /** Every line stays strictly inside the buffer and is the concatenation of exactly what was kept. */
  lemma {:induction false} LineContent(content: string, items: seq<Item>)
    requires |content| < SMALL_BUFFER
    requires forall item :: item in items ==> WellTyped(item)
    ensures |Line(content, items)| < SMALL_BUFFER
    ensures Line(content, items) == content + Flatten(Kept(content, items))
    decreases items
  {
    if items == [] {
      assert content + [] == content;
    } else {
      InsertBound(content, items[0]);
      var next := Insert(content, items[0]);
      LineContent(next, items[1..]);
      if Fits(content, items[0]) {
        JoinFirst(content, Text(items[0]), Kept(next, items[1..]));
        assert Kept(content, items) == [Text(items[0])] + Kept(next, items[1..]);
      } else {
        assert Kept(content, items) == Kept(next, items[1..]);
      }
    }
  }

  lemma JoinFirst(content: string, first: string, rest: seq<string>)
    ensures (content + first) + Flatten(rest) == content + Flatten([first] + rest)
  {
    assert ([first] + rest)[1..] == rest;
    assert (content + first) + Flatten(rest) == content + (first + Flatten(rest));
  }

  function Texts(items: seq<Item>): seq<string> {
    if items == [] then [] else [Text(items[0])] + Texts(items[1..])
  }

  /** A line whose whole text leaves 32 characters free loses nothing. */
  lemma {:induction false} ShortLineKeepsAll(content: string, items: seq<Item>)
    requires |content| + |Flatten(Texts(items))| + MAX_NUMERIC <= SMALL_BUFFER
    ensures Kept(content, items) == Texts(items)
    decreases items
  {
    if items != [] {
      assert Texts(items)[1..] == Texts(items[1..]);
      ShortLineKeepsAll(Insert(content, items[0]), items[1..]);
    }
  }

  // ---- The stream -------------------------------------------------------------

  class LogStream {
    const buffer_: FixedBuffer

    ghost predicate Valid()
      reads this, buffer_, buffer_.data_
    {
      && buffer_.Valid()
      && buffer_.data_.Length == SMALL_BUFFER
      && |buffer_.Contents()| < SMALL_BUFFER
    }

    ghost function Contents(): string
      reads this, buffer_, buffer_.data_
      requires Valid()
    {
      buffer_.Contents()
    }

    constructor ()
      ensures Valid() && fresh(buffer_) && fresh(buffer_.data_) && Contents() == ""
    {
      buffer_ := new FixedBuffer(SMALL_BUFFER);
    }

    /** formatInteger: convert writes at the cursor, NUL included, without a check of its own. */
    method InsertInteger(t: IntType, v: int)
      requires Valid() && InRange(t, v)
      modifies buffer_, buffer_.data_
      ensures Valid() && Contents() == Insert(old(Contents()), Integer(t, v))
      ensures Contents() == old(Contents()) + if |old(Contents())| <= 3968 then Decimal(v) else ""
    {
      if buffer_.GetLeftBufferSize() >= MAX_NUMERIC {
        DecimalLength(t, v);
        ghost var was := buffer_.data_[..];
        ghost var c := buffer_.cursor_;
        var len := Convert(buffer_.data_, buffer_.cursor_, v);
        WrittenAt(was[c + len := '\0'], c, Decimal(v), buffer_.data_[..]);
        buffer_.AddCurrentPtr(len);
      }
    }

    method InsertPointer(p: nat)
      requires Valid() && p < 0x1_0000_0000_0000_0000
      modifies buffer_, buffer_.data_
      ensures Valid() && Contents() == Insert(old(Contents()), Pointer(p))
      ensures Contents() == old(Contents()) + if |old(Contents())| <= 3968 then "0x" + Numeral(p, 16) else ""
    {
      if buffer_.GetLeftBufferSize() >= MAX_NUMERIC {
        HexLength(p);
        var c := buffer_.cursor_;
        buffer_.data_[c] := '0';
        buffer_.data_[c + 1] := 'x';
        ghost var was := buffer_.data_[..];
        var len := ConvertHex(buffer_.data_, c + 2, p);
        ghost var now := buffer_.data_[..];
        PointerWrittenAt(was[c + 2 + len := '\0'], c, Numeral(p, 16), now);
        buffer_.AddCurrentPtr(len + 2);
      }
    }

    /** snprintf is taken to write `text` and a NUL, at most 32 characters in all. */
    method InsertDouble(text: string)
      requires Valid() && |text| < MAX_NUMERIC
      modifies buffer_, buffer_.data_
      ensures Valid() && Contents() == Insert(old(Contents()), Double(text))
      ensures Contents() == old(Contents()) + if |old(Contents())| <= 3968 then text else ""
    {
      if buffer_.GetLeftBufferSize() >= MAX_NUMERIC {
        var c := buffer_.cursor_;
        forall k | 0 <= k <= |text| {
          buffer_.data_[c + k] := if k < |text| then text[k] else '\0';
        }
        assert buffer_.data_[c..c + |text|] == text;
        buffer_.AddCurrentPtr(|text|);
      }
    }

    method InsertBool(b: bool)
      requires Valid()
      modifies buffer_, buffer_.data_
      ensures Valid() && Contents() == Insert(old(Contents()), Bool(b))
      ensures Contents() == old(Contents()) + if |old(Contents())| >= 3995 then "" else if b then "true " else "false"
    {
      buffer_.Append(if b then "true " else "false");
    }

    method InsertChar(c: char)
      requires Valid()
      modifies buffer_, buffer_.data_
      ensures Valid() && Contents() == Insert(old(Contents()), Character(c))
      ensures Contents() == old(Contents()) + if |old(Contents())| < 3999 then [c] else ""
    {
      buffer_.Append([c]);
    }

    method InsertCString(str: Option<string>)
      requires Valid()
      modifies buffer_, buffer_.data_
      ensures Valid() && Contents() == Insert(old(Contents()), CString(str))
      ensures var text := if str.Some? then str.value else "(null)";
              Contents() == old(Contents()) + if |old(Contents())| + |text| < 4000 then text else ""
    {
      if str.Some? {
        buffer_.Append(str.value);
      } else {
        buffer_.Append("(null)");
      }
    }

    /** std::string insertion and `append(data, len)`. */
    method InsertString(s: string)
      requires Valid()
      modifies buffer_, buffer_.data_
      ensures Valid() && Contents() == Insert(old(Contents()), Str(s))
      ensures Contents() == old(Contents()) + if |old(Contents())| + |s| < 4000 then s else ""
    {
      buffer_.Append(s);
    }

    /** A whole statement `stream << items[0] << items[1] ...`. */
    method InsertAll(items: seq<Item>)
      requires Valid()
      requires forall item :: item in items ==> WellTyped(item)
      modifies buffer_, buffer_.data_
      ensures Valid() && Contents() == Line(old(Contents()), items)
    {
      for i := 0 to |items|
        invariant Valid() && Line(Contents(), items[i..]) == Line(old(Contents()), items)
      {
        assert items[i] in items && items[i..][1..] == items[i + 1..];
        match items[i] {
          case Bool(b) => InsertBool(b);
          case Integer(t, v) => InsertInteger(t, v);
          case Pointer(p) => InsertPointer(p);
          case Double(text) => InsertDouble(text);
          case Character(c) => InsertChar(c);
          case CString(str) => InsertCString(str);
          case Str(s) => InsertString(s);
        }
      }
    }
  }

  lemma WrittenAt(was: seq<char>, off: nat, text: string, now: seq<char>)
    requires Overwritten(was, off, text, now)
    ensures now[..off] == was[..off] && now[off..off + |text|] == text
  {
  }

  lemma PointerWrittenAt(was: seq<char>, off: nat, digits: string, now: seq<char>)
    requires Overwritten(was, off + 2, digits, now)
    requires was[off] == '0' && was[off + 1] == 'x'
    ensures now[..off] == was[..off] && now[off..off + 2 + |digits|] == "0x" + digits
  {
  }
}
