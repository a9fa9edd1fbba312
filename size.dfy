/**
 * The size model of cache/cache.go: `CalcLen` maps a stored value to the
 * number of bytes it is accounted for in a store's `usedBytes`.
 */
module SizeModel {
  import opened Wrappers

  /** The build target; only `amd64` is told apart from everything else. */
  datatype Arch = Amd64 | OtherArch

  /**
   * A stored value, tagged by its Go dynamic type. Numeric payloads are kept
   * as mathematical integers (floating-point and complex numbers by their bit
   * pattern): only the tag matters for the size.
   */
  datatype Value =
    | Str(s: string)
    | Bool(b: bool)
    | Int8(i: int) | Uint8(i: int)
    | Int16(i: int) | Uint16(i: int)
    | Int32(i: int) | Uint32(i: int) | Float32(bits: int)
    | Int64(i: int) | Uint64(i: int) | Float64(bits: int)
    | Int(i: int) | Uint(i: int)
    | Complex64(bits: int) | Complex128(bits: int)
      /** A value of a user type with a `Len() int` method reporting `len`. */
    | Sized(name: string, len: int)
      /** A value of any other Go type: `CalcLen` panics on it. */
    | Opaque(typeName: string)

  datatype Error = UnsupportedType(typeName: string)

  /** The values `CalcLen` can size without panicking. */
  predicate Supported(v: Value) {
    !v.Opaque?
  }

  /**
   * The number of bytes the UTF-8 encoding of `c` takes, by code point:
   * one below 0x80, two below 0x800, three below 0x10000, four above.
   */
  function CharBytes(c: char): (n: nat)
    ensures 1 <= n <= 4
    ensures n == 1 <==> (c as int) < 0x80
  {
    if (c as int) < 0x80 then 1
    else if (c as int) < 0x800 then 2
    else if (c as int) < 0x1_0000 then 3
    else 4
  }

  /** Every character of `s` is ASCII, so encodes as one byte. */
  predicate Ascii(s: string) {
    forall i :: 0 <= i < |s| ==> (s[i] as int) < 0x80
  }

  /**
   * Go's `len` of a string: the length of its UTF-8 encoding in bytes, at
   * least the number of characters and at most four times it.
   */
  function Utf8Len(s: string): (n: nat)
    ensures |s| <= n <= 4 * |s|
  {
    if s == [] then 0 else CharBytes(s[0]) + Utf8Len(s[1..])
  }

  /** The encoding is one byte per character exactly when the text is ASCII. */
  lemma {:induction false} Utf8LenAscii(s: string)
    ensures Utf8Len(s) == |s| <==> Ascii(s)
  {
    if s != [] {
      Utf8LenAscii(s[1..]);
      assert forall i :: 0 < i < |s| ==> s[i] == s[1..][i - 1];
    }
  }

  /** The encoding of a concatenation is the concatenation of the encodings. */
  lemma {:induction false} Utf8LenConcat(a: string, b: string)
    ensures Utf8Len(a + b) == Utf8Len(a) + Utf8Len(b)
  {
    if a == [] {
      assert a + b == b;
    } else {
      assert (a + b)[0] == a[0] && (a + b)[1..] == a[1..] + b;
      Utf8LenConcat(a[1..], b);
    }
  }

  /** `CalcLen`: the accounted size of `v` on `arch`, or the panic as an error. */
  function CalcLen(v: Value, arch: Arch): (r: Result<int, Error>)
    ensures r.Failure? <==> !Supported(v)
    ensures r.Failure? ==> r.error == UnsupportedType(v.typeName)
    ensures v.Sized? ==> r == Success(v.len)
    ensures r.Success? && !v.Sized? ==> r.value >= 1
  {
    match v
    case Str(s) => if arch == Amd64 then Success(16 + Utf8Len(s)) else Success(8 + Utf8Len(s))
    case Bool(_) => Success(1)
    case Int8(_) => Success(1)
    case Uint8(_) => Success(1)
    case Int16(_) => Success(2)
    case Uint16(_) => Success(2)
    case Int32(_) => Success(4)
    case Uint32(_) => Success(4)
    case Float32(_) => Success(4)
    case Int64(_) => Success(8)
    case Uint64(_) => Success(8)
    case Float64(_) => Success(8)
    case Int(_) => if arch == Amd64 then Success(8) else Success(4)
    case Uint(_) => if arch == Amd64 then Success(8) else Success(4)
    case Complex64(_) => Success(8)
    case Complex128(_) => Success(16)
    case Sized(_, n) => Success(n)
    case Opaque(t) => Failure(UnsupportedType(t))
  }

  /** The size of a value known to be supported. */
  function Size(v: Value, arch: Arch): int
    requires Supported(v)
  {
    CalcLen(v, arch).value
  }

  /** Only strings and the word-sized `int`/`uint` depend on the build target. */
  lemma ArchOnlyAffectsWordSized(v: Value)
    requires Supported(v)
    ensures CalcLen(v, Amd64) != CalcLen(v, OtherArch) <==> v.Str? || v.Int? || v.Uint?
    ensures v.Str? ==> Size(v, Amd64) == Size(v, OtherArch) + 8
    ensures v.Int? || v.Uint? ==> Size(v, Amd64) == 2 * Size(v, OtherArch)
  {
  }

  /**
   * A string is accounted as a header of two machine words plus its UTF-8
   * bytes; for ASCII text that is one byte per character.
   */
  lemma StringSize(s: string, arch: Arch)
    ensures Size(Str(s), arch) == Utf8Len(s) + (if arch == Amd64 then 16 else 8)
    ensures Size(Str(s), arch) == Utf8Len(s) + 2 * Size(Int(0), arch)
    ensures Ascii(s) ==> Size(Str(s), arch) == |s| + 2 * Size(Int(0), arch)
  {
    Utf8LenAscii(s);
  }

  /** A non-ASCII character costs more than one byte: "é" is two bytes, so 18 on amd64. */
  lemma AccentedString()
    ensures CalcLen(Str("\U{e9}"), Amd64) == Success(18)
    ensures CalcLen(Str("\U{e9}"), OtherArch) == Success(10)
  {
    assert Utf8Len("\U{e9}") == CharBytes('\U{e9}') + Utf8Len([]);
  }
}
