/** The C string operations the parser and the consumer use, on fixed-size character arrays. */
module CStrings {
  import opened Records

  function Cut(raw: CString, n: nat): CString {
    if |raw| <= n then raw else raw[..n]
  }

  /** The array a source string leaves in a field of the given size: at most size - 1
      characters, then NUL to the end. */
  function Bounded(raw: CString, size: nat): (field: seq<Char>)
    ensures |field| == size
  {
    seq(size, i requires 0 <= i < size => if i < size - 1 && i < |raw| then raw[i] else 0)
  }

  /** strncpy: copy at most n characters and pad with NUL up to n. */
  method StrNCpy(dst: array<Char>, src: CString, n: nat)
    requires n <= dst.Length
    modifies dst
    ensures forall i :: 0 <= i < n ==> dst[i] == if i < |src| then src[i] else 0
    ensures forall i :: n <= i < dst.Length ==> dst[i] == old(dst[i])
  {
    var i := 0;
    while i < n && i < |src|
      invariant 0 <= i <= n && i <= |src|
      invariant forall k :: 0 <= k < i ==> dst[k] == src[k]
      invariant forall k :: n <= k < dst.Length ==> dst[k] == old(dst[k])
    {
      dst[i] := src[i];
      i := i + 1;
    }
    while i < n
      invariant Cut(src, n) == src[..if |src| <= n then |src| else n] && |Cut(src, n)| <= i <= n
      invariant forall k :: 0 <= k < i ==> dst[k] == if k < |src| then src[k] else 0
      invariant forall k :: n <= k < dst.Length ==> dst[k] == old(dst[k])
    {
      dst[i] := 0;
      i := i + 1;
    }
  }

  /** The copy-and-terminate pair applied to every text field: whatever the array held before,
      every character of it is now determined by the source. */
  method CopyField(dst: array<Char>, raw: CString)
    requires dst.Length >= 1
    modifies dst
    ensures dst[..] == Bounded(raw, dst.Length)
  {
    StrNCpy(dst, raw, dst.Length - 1);
    dst[dst.Length - 1] := 0;
  }

  /** Reading a field back as a C string. */
  function ToCString(field: seq<Char>): CString {
    if field == [] || field[0] == 0 then [] else [field[0]] + ToCString(field[1..])
  }

  lemma {:induction false} BoundedTail(raw: CString, size: nat)
    requires raw != [] && size > 1
    ensures Bounded(raw, size) == [raw[0]] + Bounded(raw[1..], size - 1)
  {
  }

  /** A field gives back the source cut to size - 1 characters. */
  lemma {:induction false} FieldRoundTrip(raw: CString, size: nat)
    requires size >= 1
    ensures ToCString(Bounded(raw, size)) == Cut(raw, size - 1)
  {
    if raw != [] && size > 1 {
      BoundedTail(raw, size);
      FieldRoundTrip(raw[1..], size - 1);
      assert Bounded(raw, size)[1..] == Bounded(raw[1..], size - 1);
      assert Cut(raw, size - 1) == [raw[0]] + Cut(raw[1..], size - 2);
    }
  }

  /** Two sources give the same field exactly when they agree on their first size - 1
      characters. */
  lemma {:induction false} EqualFields(raw: CString, raw': CString, size: nat)
    requires size >= 1
    ensures Bounded(raw, size) == Bounded(raw', size) <==> Cut(raw, size - 1) == Cut(raw', size - 1)
  {
    FieldRoundTrip(raw, size);
    FieldRoundTrip(raw', size);
    if Cut(raw, size - 1) == Cut(raw', size - 1) {
      var c := Cut(raw, size - 1);
      forall i | 0 <= i < size
        ensures Bounded(raw, size)[i] == Bounded(raw', size)[i]
      {
        assert Bounded(raw, size)[i] == if i < |c| then c[i] else 0;
        assert Bounded(raw', size)[i] == if i < |c| then c[i] else 0;
      }
    }
  }

  /** strncmp(a, b, n) == 0, for arrays that end or are terminated in time. */
  predicate StrNCmpZero(a: seq<Char>, b: seq<Char>, n: nat)
    requires (n <= |a| || 0 in a) && (n <= |b| || 0 in b)
  {
    n == 0 || (a[0] == b[0] && (a[0] == 0 || StrNCmpZero(a[1..], b[1..], n - 1)))
  }

  /** Comparing a whole field with a literal that fits compares the strings themselves. */
  lemma {:induction false} CompareField(raw: CString, literal: CString, size: nat)
    requires |literal| + 1 < size
    ensures StrNCmpZero(Bounded(raw, size), literal + [0], size) <==> raw == literal
  {
    var field, lit := Bounded(raw, size), literal + [0];
    if raw != [] && literal != [] && raw[0] == literal[0] {
      BoundedTail(raw, size);
      CompareField(raw[1..], literal[1..], size - 1);
      assert field[1..] == Bounded(raw[1..], size - 1);
      assert lit[1..] == literal[1..] + [0];
      assert raw == [raw[0]] + raw[1..] && literal == [literal[0]] + literal[1..];
    }
  }
}
