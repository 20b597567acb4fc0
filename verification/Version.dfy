/** The comparison of version strings (verify_update in source/main.cpp). */
module Version {
  import opened Numbers

  const INT_LIMIT: nat := 0x8000_0000

  // ---------------------------------------------------------------- the order on versions

  /** The digits of a string, whatever stands between them. */
  function DigitsOf(s: string): (d: string)
    ensures |d| <= |s| && forall i :: 0 <= i < |d| ==> IsDigit(d[i])
  {
    if s == "" then "" else (if IsDigit(s[0]) then [s[0]] else "") + DigitsOf(s[1..])
  }

  /** Where the first component ends: at a dot or at the end. */
  function Dot(s: string): (k: nat)
    ensures k <= |s| && (k < |s| ==> s[k] == '.') && forall i :: 0 <= i < k ==> s[i] != '.'
  {
    if s == "" || s[0] == '.' then 0 else 1 + Dot(s[1..])
  }

  /** The text behind the first component and its dot. */
  function Behind(s: string): (r: string)
    ensures |r| <= |s| && (s != "" ==> |r| < |s|)
  {
    if Dot(s) < |s| then s[Dot(s) + 1..] else ""
  }

  function First(s: string): nat {
    Number(DigitsOf(s[..Dot(s)]), 0)
  }

  /** The numbers of a version; nothing follows a dot at the end. */
  function Components(s: string): (c: seq<nat>)
    ensures c == [] <==> s == ""
    decreases |s|
  {
    if s == "" then [] else [First(s)] + Components(Behind(s))
  }

  predicate Less(a: seq<nat>, b: seq<nat>) {
    if a == [] || b == [] then a == [] && b != []
    else a[0] < b[0] || (a[0] == b[0] && Less(a[1..], b[1..]))
  }

  /** The unknown version and the empty one. */
  predicate Bottom(s: string, unknown: string) {
    s == "" || s == unknown
  }

  /** `remote` is an update of `local`. */
  predicate Newer(local: string, remote: string, unknown: string) {
    !Bottom(remote, unknown) && (Bottom(local, unknown) || Less(Components(local), Components(remote)))
  }

  // ---------------------------------------------------------------- the code

  /** The numbers that the comparison converts fit an int, as atoi needs: up to the first
      difference. */
  predicate Converts(a: string, b: string)
    decreases |a|
  {
    a == "" || b == ""
    || (First(a) < INT_LIMIT && First(b) < INT_LIMIT && (First(a) == First(b) ==> Converts(Behind(a), Behind(b))))
  }

  lemma DigitsMore(s: string, c: char)
    ensures DigitsOf(s + [c]) == DigitsOf(s) + if IsDigit(c) then [c] else ""
  {
    if s == "" {
      assert s + [c] == [c] && [c][1..] == "";
    } else {
      assert (s + [c])[1..] == s[1..] + [c];
      DigitsMore(s[1..], c);
    }
  }

  lemma {:induction false} DotAt(s: string, k: nat)
    requires k <= |s| && (k < |s| ==> s[k] == '.') && forall i :: 0 <= i < k ==> s[i] != '.'
    ensures Dot(s) == k
  {
    if k > 0 {
      DotAt(s[1..], k - 1);
    }
  }

  lemma {:induction false} NumberStops(s: string, n: nat, acc: nat)
    requires n < |s| && !IsDigit(s[n]) && forall i :: 0 <= i < n ==> IsDigit(s[i])
    ensures Number(s, acc) == Number(s[..n], acc)
  {
    if n > 0 {
      assert s[1..][..n - 1] == s[..n][1..];
      NumberStops(s[1..], n - 1, 10 * acc + (s[0] - '0') as nat);
    }
  }

  /** memset */
  method Clear(buffer: array<char>)
    modifies buffer
    ensures forall m :: 0 <= m < buffer.Length ==> buffer[m] == '\0'
  {
    for j := 0 to buffer.Length
      invariant forall m :: 0 <= m < j ==> buffer[m] == '\0'
    {
      buffer[j] := '\0';
    }
  }

  lemma DigitsNext(version: string, start: nat, i: nat)
    requires start <= i < |version|
    ensures DigitsOf(version[start..i + 1])
      == DigitsOf(version[start..i]) + if IsDigit(version[i]) then [version[i]] else ""
  {
    assert version[start..i + 1] == version[start..i] + [version[i]];
    DigitsMore(version[start..i], version[i]);
  }

  lemma BehindIs(version: string, start: nat, read: nat, i: nat)
    requires start <= read <= i <= |version| && forall m :: start <= m < read ==> version[m] != '.'
    requires (i == read + 1 && version[read] == '.') || i == read == |version|
    ensures version[i..] == Behind(version[start..])
    ensures version[start..read] == version[start..][..Dot(version[start..])]
  {
    DotAt(version[start..], read - start);
  }

  /** The loop over one component: its digits are gathered in the buffer. */
  method Gather(version: string, start: nat, buffer: array<char>) returns (i: nat, k: nat)
    requires start <= |version| < buffer.Length
    requires forall m :: 0 <= m < buffer.Length ==> buffer[m] == '\0'
    modifies buffer
    ensures i <= |version| && version[i..] == Behind(version[start..]) && (start < |version| ==> start < i)
    ensures k < buffer.Length && buffer[k] == '\0'
    ensures buffer[..k] == DigitsOf(version[start..][..Dot(version[start..])])
  {
    i, k := start, 0;
    var dot := false;
    ghost var read := start;
    while i < |version| && !dot
      invariant start <= read <= i <= |version|
      invariant if dot then read < |version| && version[read] == '.' && i == read + 1 else i == read
      invariant forall m :: start <= m < read ==> version[m] != '.'
      invariant k <= read - start && buffer[..k] == DigitsOf(version[start..read])
      invariant forall m :: k <= m < buffer.Length ==> buffer[m] == '\0'
      decreases |version| - i
    {
      DigitsNext(version, start, i);
      if IsDigit(version[i]) {
        buffer[k] := version[i];
        k := k + 1;
      }
      if version[i] == '.' {
        dot := true;
      } else {
        read := read + 1;
      }
      i := i + 1;
    }
    BehindIs(version, start, read, i);
  }

  /** atoi on digits; what does not fit an int is undefined. */
  function Atoi(s: string): nat
    requires Number(s, 0) < INT_LIMIT
  {
    Number(s, 0)
  }

  /** One component and its value. */
  method Component(version: string, start: nat, buffer: array<char>) returns (i: nat, value: nat)
    requires start <= |version| < buffer.Length && First(version[start..]) < INT_LIMIT
    modifies buffer
    ensures i <= |version| && version[i..] == Behind(version[start..]) && (start < |version| ==> start < i)
    ensures value == First(version[start..])
  {
    Clear(buffer);
    var k;
    i, k := Gather(version, start, buffer);
    assert buffer[..][..k] == buffer[..k];
    NumberStops(buffer[..], k, 0);
    value := Atoi(buffer[..]);
  }

  lemma LessHere(a: string, b: string)
    requires a != "" && b != ""
    ensures Less(Components(a), Components(b))
      <==> First(a) < First(b) || (First(a) == First(b) && Less(Components(Behind(a)), Components(Behind(b))))
  {
  }

  /** verify_update; `unknown` is the text that stands for an unknown version. */
  method VerifyUpdate(local: string, remote: string, unknown: string) returns (update: bool)
    requires local != remote && !Bottom(local, unknown) && !Bottom(remote, unknown) ==> Converts(local, remote)
    ensures update <==> Newer(local, remote, unknown)
  {
    if local == remote || remote == unknown || remote == "" {
      NotBelowItself(Components(local));
      return false;
    }
    if local == unknown || local == "" {
      return true;
    }
    update := Compare(local, remote);
  }

  /** The goto loop of verify_update. */
  method Compare(local: string, remote: string) returns (update: bool)
    requires Converts(local, remote) && local != "" && remote != ""
    ensures update <==> Less(Components(local), Components(remote))
  {
    var localTest, remoteTest := new char[|local| + 1], new char[|remote| + 1];
    var i: nat, j: nat := 0, 0;
    ghost var a, b := local, remote;
    while true
      invariant i < |local| && j < |remote| && a == local[i..] && b == remote[j..] && Converts(a, b)
      invariant Less(Components(local), Components(remote)) <==> Less(Components(a), Components(b))
      decreases |local| - i
    {
      LessHere(a, b);
      var localValue, remoteValue;
      i, localValue := Component(local, i, localTest);
      j, remoteValue := Component(remote, j, remoteTest);
      a, b := Behind(a), Behind(b);
      if remoteValue > localValue {
        return true;
      } else if remoteValue < localValue {
        return false;
      } else if i == |local| && j == |remote| {
        return false;
      } else if i == |local| && j != |remote| {
        return true;
      } else if i != |local| && j == |remote| {
        return false;
      }
    }
  }

  // ---------------------------------------------------------------- it is a strict weak order

  lemma {:induction false} NotBelowItself(a: seq<nat>)
    ensures !Less(a, a)
  {
    if a != [] {
      NotBelowItself(a[1..]);
    }
  }

  /** Less is the lexicographic order: the first difference decides, a proper prefix is smaller. */
  lemma {:induction false} LessIs(a: seq<nat>, b: seq<nat>)
    ensures Less(a, b) <==> exists k: nat :: FirstDifference(a, b, k) && (k == |a| || a[k] < b[k])
  {
    if a == [] || b == [] {
      if a == [] && b != [] {
        assert FirstDifference(a, b, 0);
      }
    } else if a[0] != b[0] {
      assert FirstDifference(a, b, 0);
      forall k: nat | FirstDifference(a, b, k)
        ensures k == 0
      {
        if k > 0 {
          SameHead(a, b, k);
        }
      }
    } else {
      LessIs(a[1..], b[1..]);
      forall k: nat | FirstDifference(a[1..], b[1..], k) && (k == |a[1..]| || a[1..][k] < b[1..][k])
        ensures FirstDifference(a, b, k + 1)
      {
        assert a[..k + 1] == [a[0]] + a[1..][..k] && b[..k + 1] == [b[0]] + b[1..][..k];
      }
      forall k: nat | FirstDifference(a, b, k)
        ensures k > 0 && FirstDifference(a[1..], b[1..], k - 1)
      {
        assert a[..k][1..] == a[1..][..k - 1] && b[..k][1..] == b[1..][..k - 1];
      }
      if k: nat :| FirstDifference(a, b, k) && (k == |a| || a[k] < b[k]) {
        assert FirstDifference(a[1..], b[1..], k - 1);
      }
      if k: nat :| FirstDifference(a[1..], b[1..], k) && (k == |a[1..]| || a[1..][k] < b[1..][k]) {
        assert FirstDifference(a, b, k + 1);
      }
    }
  }

  lemma SameHead(a: seq<nat>, b: seq<nat>, k: nat)
    requires 0 < k <= |a| && k <= |b| && a[..k] == b[..k]
    ensures a[0] == b[0]
  {
    assert a[..k][0] == b[..k][0];
  }

  /** a and b agree before k, and there b goes on, with another number if a does too. */
  predicate FirstDifference(a: seq<nat>, b: seq<nat>, k: nat) {
    k <= |a| && k < |b| && a[..k] == b[..k] && (k < |a| ==> a[k] != b[k])
  }

  lemma {:induction false} LessTransitive(a: seq<nat>, b: seq<nat>, c: seq<nat>)
    requires Less(a, b) && Less(b, c)
    ensures Less(a, c)
  {
    if a != [] && b != [] && c != [] && a[0] == b[0] == c[0] {
      LessTransitive(a[1..], b[1..], c[1..]);
    }
  }

  lemma {:induction false} LessTotal(a: seq<nat>, b: seq<nat>)
    ensures Less(a, b) || a == b || Less(b, a)
  {
    if a != [] && b != [] && a[0] == b[0] {
      LessTotal(a[1..], b[1..]);
      assert a == [a[0]] + a[1..] && b == [b[0]] + b[1..];
    }
  }

  /** Being an update is irreflexive and transitive, hence asymmetric. */
  lemma NewerIsStrict(a: string, b: string, c: string, unknown: string)
    ensures !Newer(a, a, unknown)
    ensures Newer(a, b, unknown) ==> !Newer(b, a, unknown)
    ensures Newer(a, b, unknown) && Newer(b, c, unknown) ==> Newer(a, c, unknown)
  {
    var x, y, z := Components(a), Components(b), Components(c);
    NotBelowItself(x);
    if Less(x, y) && Less(y, x) {
      LessTransitive(x, y, x);
    }
    if Less(x, y) && Less(y, z) {
      LessTransitive(x, y, z);
    }
  }

  /** Neither updates the other exactly when both are bottom or both have the same numbers: so
      this is an equivalence, and the order is weak. */
  lemma NewerIsWeak(a: string, b: string, unknown: string)
    ensures !Newer(a, b, unknown) && !Newer(b, a, unknown)
      <==> if Bottom(a, unknown) || Bottom(b, unknown) then Bottom(a, unknown) && Bottom(b, unknown)
           else Components(a) == Components(b)
  {
    LessTotal(Components(a), Components(b));
    NotBelowItself(Components(a));
  }

  // ---------------------------------------------------------------- printed versions

  /** Numbers in decimal, with dots between them. */
  function Dotted(xs: seq<nat>): (s: string)
    requires xs != []
  {
    if |xs| == 1 then Digits(xs[0]) else Digits(xs[0]) + "." + Dotted(xs[1..])
  }

  lemma {:induction false} AllDigits(d: string)
    requires forall i :: 0 <= i < |d| ==> IsDigit(d[i])
    ensures DigitsOf(d) == d
  {
    if d != "" {
      AllDigits(d[1..]);
    }
  }

  lemma FirstPrinted(n: nat, rest: string)
    requires rest == "" || rest[0] == '.'
    ensures var s := Digits(n) + rest;
      s != "" && First(s) == n && Behind(s) == if rest == "" then "" else rest[1..]
  {
    var d := Digits(n);
    var s := d + rest;
    DigitsFit(n, 1);
    assert Dot(s) == |d| by {
      forall i | 0 <= i < |d|
        ensures s[i] != '.'
      {
        assert IsDigit(d[i]);
      }
      DotAt(s, |d|);
    }
    assert s[..|d|] == d && (rest != "" ==> s[|d| + 1..] == rest[1..]);
    AllDigits(d);
    NumberOfDigits(n);
  }

  /** The components of a printed version are its numbers. */
  lemma {:induction false} ComponentsOfDotted(xs: seq<nat>)
    requires xs != []
    ensures Components(Dotted(xs)) == xs
  {
    if |xs| == 1 {
      LastPrinted(xs[0]);
      assert [xs[0]] == xs;
    } else {
      NextPrinted(xs[0], Dotted(xs[1..]));
      ComponentsOfDotted(xs[1..]);
      assert [xs[0]] + xs[1..] == xs;
    }
  }

  lemma LastPrinted(n: nat)
    ensures Components(Digits(n)) == [n]
  {
    FirstPrinted(n, "");
    assert Digits(n) + "" == Digits(n);
  }

  lemma NextPrinted(n: nat, more: string)
    ensures Components(Digits(n) + "." + more) == [n] + Components(more)
  {
    var s := Digits(n) + "." + more;
    assert s == Digits(n) + ("." + more);
    FirstPrinted(n, "." + more);
    assert ("." + more)[1..] == more;
    assert s != "" && First(s) == n && Behind(s) == more;
  }

  /** Of two printed versions, neither the unknown one, the second is an update exactly if at the
      first difference it has the larger number, or goes on where the other ends. */
  lemma NewerPrinted(xs: seq<nat>, ys: seq<nat>, unknown: string)
    requires xs != [] && ys != [] && Dotted(xs) != unknown && Dotted(ys) != unknown
    ensures Newer(Dotted(xs), Dotted(ys), unknown)
      <==> exists k: nat :: FirstDifference(xs, ys, k) && (k == |xs| || xs[k] < ys[k])
  {
    ComponentsOfDotted(xs);
    ComponentsOfDotted(ys);
    LessIs(xs, ys);
  }

  /** Nothing is an update to "" or the unknown text, and everything else is one from them. */
  lemma NewerBottom(local: string, remote: string, unknown: string)
    ensures remote == "" || remote == unknown ==> !Newer(local, remote, unknown)
    ensures (local == "" || local == unknown) && remote != "" && remote != unknown ==> Newer(local, remote, unknown)
  {
  }

  lemma LooseTail()
    ensures Components("02b.") == [2]
  {
    DotAt("02b.", 3);
    assert "02b."[..3] == "02b" && "02b."[4..] == "";
    assert DigitsOf("02b") == "02" by {
      assert "02b"[1..] == "2b" && "2b"[1..] == "b" && "b"[1..] == "";
    }
    assert Number("02", 0) == Number("2", 0) == 2 by {
      assert "02"[1..] == "2" && "2"[1..] == "";
    }
    assert Components("02b.") == [2] + Components("");
  }

  /** Other characters, zeros in front and a dot at the end do not matter. */
  lemma LooseVersion()
    ensures Components("v1.02b.") == [1, 2]
  {
    DotAt("v1.02b.", 2);
    assert "v1.02b."[..2] == "v1" && "v1.02b."[3..] == "02b.";
    assert DigitsOf("v1") == DigitsOf("1") == "1" by {
      assert "v1"[1..] == "1" && "1"[1..] == "";
    }
    assert Number("1", 0) == 1;
    LooseTail();
  }
}
