/** getdelim and getline with a growing buffer (includes/getdelim.h). */
module GetDelim {
  import opened Options
  import opened IniText
  import opened IniLines
  import opened IniParse

  const INITIAL_BUFFSZ: nat := 128

  // ---------------------------------------------------------------- what one call reads

  predicate IsDelimiter(c: char, delimiter: int) {
    c as int == delimiter
  }

  /** The text up to the first delimiter, included, or all of it. */
  function Record(text: string, delimiter: int): (r: string)
    ensures r <= text && (r == "" <==> text == "")
    ensures forall i :: 0 <= i < |r| - 1 ==> !IsDelimiter(r[i], delimiter)
    ensures r != "" && !IsDelimiter(r[|r| - 1], delimiter) ==> r == text
  {
    if text == "" then ""
    else if IsDelimiter(text[0], delimiter) then [text[0]]
    else [text[0]] + Record(text[1..], delimiter)
  }

  /** The records that successive calls return until the end of the stream. */
  function Records(text: string, delimiter: int): seq<string>
    decreases |text|
  {
    if text == "" then []
    else
      var r := Record(text, delimiter);
      [r] + Records(text[|r|..], delimiter)
  }

  /** The records make up the stream; a delimiter stands at the end of each but possibly the
      last, and nowhere else. */
  lemma {:induction false} RecordsMakeText(text: string, delimiter: int)
    ensures Concat(Records(text, delimiter)) == text
    ensures var rs := Records(text, delimiter);
      forall k :: 0 <= k < |rs| ==> EndsOnce(rs[k], delimiter, k == |rs| - 1)
    decreases |text|
  {
    if text != "" {
      var r := Record(text, delimiter);
      RecordsMakeText(text[|r|..], delimiter);
      assert text == r + text[|r|..];
      var rs, more := Records(text, delimiter), Records(text[|r|..], delimiter);
      assert rs[1..] == more;
      forall k | 0 <= k < |rs|
        ensures EndsOnce(rs[k], delimiter, k == |rs| - 1)
      {
        if k > 0 {
          assert EndsOnce(more[k - 1], delimiter, k - 1 == |more| - 1);
        }
      }
    }
  }

  predicate EndsOnce(r: string, delimiter: int, last: bool) {
    && r != "" && (last || IsDelimiter(r[|r| - 1], delimiter))
    && forall i :: 0 <= i < |r| - 1 ==> !IsDelimiter(r[i], delimiter)
  }

  predicate NoneBefore(text: string, n: nat, delimiter: int)
    requires n <= |text|
  {
    forall i :: 0 <= i < n ==> !IsDelimiter(text[i], delimiter)
  }

  /** A record ends where nothing before ends it and something ends it there. */
  lemma {:induction false} RecordIs(text: string, delimiter: int, n: nat)
    requires n <= |text| && (n > 0 ==> NoneBefore(text, n - 1, delimiter))
    requires n == |text| || (n > 0 && IsDelimiter(text[n - 1], delimiter))
    ensures Record(text, delimiter) == text[..n]
    decreases n
  {
    if n > 1 {
      assert NoneBefore(text[1..], n - 2, delimiter);
      assert !IsDelimiter(text[0], delimiter);
      RecordIs(text[1..], delimiter, n - 1);
      assert text[..n] == [text[0]] + text[1..][..n - 1];
    } else if n == 1 && !IsDelimiter(text[0], delimiter) {
      assert Record(text[1..], delimiter) == "";
    }
  }

  // ---------------------------------------------------------------- the buffer

  /** *lineptr and *n of the caller. */
  class Line {
    var ptr: array?<char>
    var n: nat
    ghost var moved: nat

    /** A buffer of the caller has the size he says. */
    ghost predicate Valid()
      reads this
    {
      ptr != null ==> ptr.Length == n
    }

    constructor ()
      ensures Valid() && ptr == null && moved == 0
    {
      ptr, n, moved := null, 0, 0;
    }

    /** malloc for a caller without a buffer. */
    method Allocate()
      requires Valid() && ptr == null
      modifies `ptr, `n
      ensures Valid() && ptr != null && fresh(ptr) && n == INITIAL_BUFFSZ
    {
      ptr := new char[INITIAL_BUFFSZ];
      n := INITIAL_BUFFSZ;
    }

    /** The size after a growth. */
    function Grown(): nat
      reads this
    {
      if n + n / 4 < INITIAL_BUFFSZ then INITIAL_BUFFSZ else n + n / 4
    }

    /** realloc: at worst all n bytes are moved. */
    method Grow()
      requires Valid() && ptr != null
      modifies `ptr, `n, `moved
      ensures Valid() && ptr != null && fresh(ptr) && n == old(Grown()) && moved == old(moved) + old(n)
      ensures ptr[..old(n)] == old(ptr[..])
    {
      var size := n + n / 4;
      if size < INITIAL_BUFFSZ {
        size := INITIAL_BUFFSZ;
      }
      var was := ptr;
      var p := new char[size](i requires 0 <= i < size reads was => if i < was.Length then was[i] else NUL);
      moved := moved + n;
      ptr, n := p, size;
      assert ptr[..old(n)] == was[..];
    }

    /** What a call has cost when it started with `n0` bytes and has read `pos`. */
    ghost predicate Cheap(n0: nat, pos: nat)
      reads this
    {
      && 32 * moved <= 131 * n
      && (n == n0 || n == INITIAL_BUFFSZ || 4 * n <= 5 * pos)
      && n0 <= n && (if n == n0 then moved == 0 else INITIAL_BUFFSZ <= n)
    }

    /** The buffer has room for one more byte and a NUL. */
    method Reserve(pos: nat, ghost n0: nat)
      requires Valid() && ptr != null && (pos < n || pos == 0)
      requires Cheap(n0, pos)
      modifies `ptr, `n, `moved
      ensures Valid() && ptr != null && (ptr == old(ptr) || fresh(ptr)) && pos + 1 < n && old(n) <= n
      ensures Cheap(n0, pos + 1)
      ensures pos <= old(n) && ptr[..pos] == old(ptr[..pos])
    {
      if pos + 1 >= n {
        GrowthIsCheap(moved, n);
        Grow();
        assert ptr[..pos] == old(ptr[..])[..pos];
      }
    }

    /** The next byte of the text is stored behind those before. */
    method Put(ghost text: string, pos: nat, c: char, ghost n0: nat)
      requires Valid() && ptr != null && (pos < n || pos == 0) && Cheap(n0, pos)
      requires pos <= n && pos < |text| && c == text[pos] && ptr[..pos] == text[..pos]
      modifies this, ptr
      ensures Valid() && ptr != null && (ptr == old(ptr) || fresh(ptr)) && pos + 1 < n
      ensures Cheap(n0, pos + 1) && ptr[..pos + 1] == text[..pos + 1]
    {
      Reserve(pos, n0);
      ghost var got := ptr[..pos];
      ptr[pos] := c;
      assert ptr[..pos + 1] == got + [c] && text[..pos + 1] == text[..pos] + [c];
    }

    /** The bytes from `first` on are read up to the delimiter. */
    method Fill(ghost text: string, first: char, delimiter: int, stream: Stream, ghost n0: nat) returns (pos: nat)
      requires Valid() && stream.Valid() && ptr != null && Cheap(n0, 0)
      requires text != "" && text[0] == first && stream.Left() == text[1..]
      modifies this, ptr, stream`pos
      ensures Valid() && stream.Valid() && ptr != null && (ptr == old(ptr) || fresh(ptr)) && pos < n
      ensures pos <= |text| && ptr[..pos] == text[..pos] && stream.Left() == text[pos..]
      ensures pos > 0 ==> NoneBefore(text, pos - 1, delimiter)
      ensures pos == |text| || (pos > 0 && IsDelimiter(text[pos - 1], delimiter))
      ensures Cheap(n0, pos)
    {
      pos := 0;
      var c := Some(first);
      while c.Some?
        invariant Valid() && stream.Valid() && ptr != null && (ptr == old(ptr) || fresh(ptr))
        invariant Cheap(n0, pos) && (pos < n || pos == 0) && pos <= n && pos <= |text|
        invariant ptr[..pos] == text[..pos]
        invariant NoneBefore(text, pos, delimiter)
        invariant c.Some? ==> pos < |text| && c.value == text[pos] && stream.Left() == text[pos + 1..]
        invariant c.None? ==> pos == |text| && stream.Left() == text[pos..] && 0 < pos < n
        decreases |text| - pos, c.Some?
      {
        Put(text, pos, c.value, n0);
        pos := pos + 1;
        if c.value as int == delimiter {
          return pos;
        }
        c := GetC(text, pos, stream);
      }
    }

    /** getdelim */
    method GetDelim(delimiter: int, stream: Stream) returns (length: int)
      requires Valid() && stream.Valid()
      modifies this, ptr, stream`pos
      ensures Valid() && stream.Valid() && (ptr == old(ptr) || fresh(ptr))
      ensures old(stream.Left()) == "" ==>
        length == -1 && ptr == old(ptr) && n == old(n) && moved == 0 && stream.Left() == ""
      ensures old(stream.Left()) != "" ==>
        var r := Record(old(stream.Left()), delimiter);
        && length == |r| && ptr != null && length < n && ptr[..length] == r && ptr[length] == NUL
        && stream.Left() == old(stream.Left())[length..]
      ensures old(stream.Left()) != "" ==>
        && 32 * moved <= 131 * n
        && (n == old(n) || n == INITIAL_BUFFSZ || 4 * n <= 5 * length)
    {
      moved := 0;
      var c := GetC(stream.Left(), 0, stream);
      if c == None {
        return -1;
      }
      if ptr == null {
        Allocate();
      }
      length := ReadRecord(old(stream.Left()), c.value, delimiter, stream, n);
    }

    /** The record that starts with `first`, and its NUL. */
    method ReadRecord(ghost text: string, first: char, delimiter: int, stream: Stream, ghost n0: nat)
      returns (pos: nat)
      requires Valid() && stream.Valid() && ptr != null && Cheap(n0, 0)
      requires text != "" && text[0] == first && stream.Left() == text[1..]
      modifies this, ptr, stream`pos
      ensures Valid() && stream.Valid() && ptr != null && (ptr == old(ptr) || fresh(ptr)) && pos < n
      ensures ptr[..pos] == Record(text, delimiter) && ptr[pos] == NUL && stream.Left() == text[pos..]
      ensures Cheap(n0, pos)
    {
      pos := Fill(text, first, delimiter, stream, n0);
      RecordIs(text, delimiter, pos);
      ptr[pos] := NUL;
      assert ptr[..pos] == text[..pos];
    }

    /** getline */
    method GetLine(stream: Stream) returns (length: int)
      requires Valid() && stream.Valid()
      modifies this, ptr, stream`pos
      ensures Valid() && stream.Valid() && (ptr == old(ptr) || fresh(ptr))
      ensures old(stream.Left()) == "" ==>
        length == -1 && ptr == old(ptr) && n == old(n) && moved == 0 && stream.Left() == ""
      ensures old(stream.Left()) != "" ==>
        var r := Record(old(stream.Left()), '\n' as int);
        && length == |r| && ptr != null && length < n && ptr[..length] == r && ptr[length] == NUL
        && stream.Left() == old(stream.Left())[length..]
      ensures old(stream.Left()) != "" ==>
        && 32 * moved <= 131 * n
        && (n == old(n) || n == INITIAL_BUFFSZ || 4 * n <= 5 * length)
    {
      length := GetDelim('\n' as int, stream);
    }

    /** A caller who reads to the end gets all records. */
    method ReadAll(delimiter: int, stream: Stream) returns (records: seq<string>)
      requires Valid() && stream.Valid()
      modifies this, ptr, stream`pos
      ensures records == Records(old(stream.Left()), delimiter) && Concat(records) == old(stream.Left())
      ensures stream.Valid() && stream.Left() == ""
    {
      RecordsMakeText(stream.Left(), delimiter);
      ghost var rest := (text: string) => Records(text, delimiter);
      assert rest(stream.Left()) == Records(stream.Left(), delimiter);
      records := ReadRest(delimiter, stream, rest);
    }

    method ReadRest(delimiter: int, stream: Stream, ghost rest: string -> seq<string>) returns (records: seq<string>)
      requires Valid() && stream.Valid() && Splits(rest, delimiter)
      modifies this, ptr, stream`pos
      ensures records == rest(old(stream.Left())) && stream.Valid() && stream.Left() == ""
    {
      records := [];
      ghost var left, all := stream.Left(), rest(stream.Left());
      var length := GetDelim(delimiter, stream);
      while length != -1
        invariant Valid() && stream.Valid() && (ptr == old(ptr) || fresh(ptr))
        invariant length == -1 ==> left == stream.Left() == ""
        invariant length != -1 ==> left != "" && ptr != null && 0 <= length < n
        invariant length != -1 ==> ptr[..length] == Record(left, delimiter) && stream.Left() == left[length..]
        invariant records + rest(left) == all
        decreases |left|
      {
        FirstRecord(left, stream.Left(), delimiter, records, rest);
        records := records + [ptr[..length]];
        left := stream.Left();
        length := GetDelim(delimiter, stream);
      }
      assert rest("") == Records("", delimiter) == [];
    }
  }

  /** `rest` is Records, unfolded only where Records is mentioned. */
  ghost predicate Splits(rest: string -> seq<string>, delimiter: int) {
    forall text {:trigger Records(text, delimiter)} :: rest(text) == Records(text, delimiter)
  }

  lemma FirstRecord(text: string, more: string, delimiter: int, before: seq<string>, rest: string -> seq<string>)
    requires text != "" && more == text[|Record(text, delimiter)|..] && Splits(rest, delimiter)
    ensures |more| < |text| && before + rest(text) == before + [Record(text, delimiter)] + rest(more)
  {
    assert rest(text) == Records(text, delimiter) && rest(more) == Records(more, delimiter);
  }

  /** getc, when `text` has been read up to pos: None is EOF. */
  method GetC(ghost text: string, ghost pos: nat, stream: Stream) returns (c: Option<char>)
    requires stream.Valid() && pos <= |text| && stream.Left() == text[pos..]
    modifies stream`pos
    ensures stream.Valid()
    ensures c.None? ==> pos == |text| && stream.Left() == text[pos..]
    ensures c.Some? ==> pos < |text| && c.value == text[pos] && stream.Left() == text[pos + 1..]
  {
    if stream.pos == |stream.text| {
      return None;
    }
    c := Some(stream.text[stream.pos]);
    stream.pos := stream.pos + 1;
    assert text[pos..][1..] == text[pos + 1..];
  }

  /** A growth by a quarter keeps the moved bytes below 131/32 of the size. */
  lemma GrowthIsCheap(moved: nat, n: nat)
    requires 32 * moved <= 131 * n && (n < INITIAL_BUFFSZ ==> moved == 0)
    ensures 32 * (moved + n) <= 131 * if n + n / 4 < INITIAL_BUFFSZ then INITIAL_BUFFSZ else n + n / 4
  {
    if n >= INITIAL_BUFFSZ {
      assert n == 4 * (n / 4) + n % 4 && n / 4 >= 32;
    }
  }
}
