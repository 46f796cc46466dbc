/**
 Object keys (internal/config/config.go, KeysFor) and the file names made from them
 (internal/tmbench/tmbench.go, sanitize). A character stands for one byte.
 */
module Keys {

  // ---------------------------------------------------------------- decimal numbers

  function Digit(d: nat): char
    requires d < 10
  {
    '0' + d as char
  }

  /** The %d format of a number that is not negative. */
  function Decimal(n: nat): (s: string)
    ensures |s| > 0
  {
    if n < 10 then [Digit(n)] else Decimal(n / 10) + [Digit(n % 10)]
  }

  function Value(s: string): int {
    if s == [] then 0 else 10 * Value(s[..|s| - 1]) + (s[|s| - 1] as int - '0' as int)
  }

  /** Reading a decimal number back gives the number, so printing is injective. */
  lemma {:induction false} DecimalReadsBack(n: nat)
    ensures Value(Decimal(n)) == n
  {
    if n < 10 {
      assert [Digit(n)][..0] == [];
    } else {
      DecimalReadsBack(n / 10);
      assert Decimal(n)[..|Decimal(n)| - 1] == Decimal(n / 10);
    }
  }

  predicate IsDigit(c: char) {
    '0' <= c <= '9'
  }

  lemma {:induction false} DecimalDigits(n: nat)
    ensures forall k :: 0 <= k < |Decimal(n)| ==> IsDigit(Decimal(n)[k])
    ensures n > 0 ==> Decimal(n)[0] != '0'
  {
    if n >= 10 {
      DecimalDigits(n / 10);
    }
  }

  // ---------------------------------------------------------------- keys

  function Lower(c: char): char {
    if 'A' <= c <= 'Z' then c + ('a' - 'A') else c
  }

  /** The size label without blanks and in lower case. */
  function Clean(size: string): string {
    if size == [] then []
    else if size[0] == ' ' then Clean(size[1..])
    else [Lower(size[0])] + Clean(size[1..])
  }

  /**
   A label is cleaned character by character: a blank vanishes, a capital becomes the small letter 32 places
   on, everything else stays.
   */
  lemma {:induction false} CleanIsBytewise(s: string, t: string, c: char)
    ensures Clean(s + t) == Clean(s) + Clean(t)
    ensures Clean([c]) == if c == ' ' then [] else if 'A' <= c <= 'Z' then [(c as int + 32) as char] else [c]
  {
    if s == [] {
      assert s + t == t;
    } else {
      assert (s + t)[1..] == s[1..] + t;
      CleanIsBytewise(s[1..], t, c);
    }
  }

  const EXT := ".bin"

  function KeyAt(stem: string, count: int, i: nat): string {
    if count <= 1 then stem + EXT else stem + "-" + Decimal(i) + EXT
  }

  function KeyCount(count: int): int {
    if count < 1 then 1 else count
  }

  /** The keys of a size group. */
  method KeysFor(dataPrefix: string, size: string, count: int) returns (keys: array<string>)
    ensures fresh(keys) && keys.Length == KeyCount(count)
    ensures forall i :: 0 <= i < keys.Length ==> keys[i] == KeyAt(dataPrefix + Clean(size), count, i)
    ensures forall i :: 0 <= i < keys.Length ==>
              keys[i] == dataPrefix + Clean(size) + (if count <= 1 then "" else "-" + Decimal(i)) + ".bin"
  {
    var clean := Clean(size);
    if count <= 1 {
      keys := new string[] [dataPrefix + clean + ".bin"];
      return;
    }
    keys := new string[count];
    for i := 0 to count
      invariant forall j :: 0 <= j < i ==> keys[j] == KeyAt(dataPrefix + clean, count, j)
    {
      keys[i] := dataPrefix + clean + "-" + Decimal(i) + ".bin";
    }
  }

  // ---------------------------------------------------------------- file names

  predicate Keeps(c: char) {
    'a' <= c <= 'z' || '0' <= c <= '9' || c == '-' || c == '.'
  }

  predicate AllKept(s: string) {
    forall k :: 0 <= k < |s| ==> Keeps(s[k])
  }

  function SanitizedByte(c: char): string {
    if Keeps(c) then [c] else if 'A' <= c <= 'Z' then [c + ('a' - 'A')] else []
  }

  function Sanitized(s: string): string {
    if s == [] then [] else Sanitized(s[..|s| - 1]) + SanitizedByte(s[|s| - 1])
  }

  method Sanitize(s: string) returns (out: string)
    ensures out == Sanitized(s)
  {
    out := [];
    for k := 0 to |s|
      invariant out == Sanitized(s[..k])
    {
      var c := s[k];
      if 'a' <= c <= 'z' || '0' <= c <= '9' || c == '-' || c == '.' {
        out := out + [c];
      } else if 'A' <= c <= 'Z' {
        out := out + [c + ('a' - 'A')];
      }
      assert s[..k + 1][..k] == s[..k];
    }
    assert s[..|s|] == s;
  }

  lemma {:induction false} SanitizedConcat(s: string, t: string)
    ensures Sanitized(s + t) == Sanitized(s) + Sanitized(t)
  {
    if t == [] {
      assert s + t == s;
    } else {
      var last := |t| - 1;
      SanitizedConcat(s, t[..last]);
      var whole := s + t;
      assert whole[..|whole| - 1] == s + t[..last] && whole[|whole| - 1] == t[last];
      assert Sanitized(whole) == Sanitized(s + t[..last]) + SanitizedByte(t[last]);
    }
  }

  /** What becomes of each byte; with SanitizedConcat this determines every file name. */
  lemma SanitizedOfOne(c: char)
    ensures Sanitized([c]) ==
            if 'a' <= c <= 'z' || '0' <= c <= '9' || c == '-' || c == '.' then [c]
            else if 'A' <= c <= 'Z' then [(c as int + 32) as char] else []
  {
    assert [c][..0] == [];
  }

  lemma {:induction false} SanitizedKeeps(s: string)
    requires AllKept(s)
    ensures Sanitized(s) == s
  {
    if s != [] {
      SanitizedKeeps(s[..|s| - 1]);
    }
  }

  lemma {:induction false} SanitizedIsClean(s: string)
    ensures AllKept(Sanitized(s))
  {
    if s != [] {
      SanitizedIsClean(s[..|s| - 1]);
    }
  }

  /**
   File names consist of a-z, 0-9, '-' and '.' only, so they have no path separator; a text
   is its own file name exactly if it is of this kind, and sanitizing twice is sanitizing once.
   */
  lemma FileNamesAreClean(s: string)
    ensures AllKept(Sanitized(s))
    ensures Sanitized(s) == s <==> AllKept(s)
    ensures Sanitized(Sanitized(s)) == Sanitized(s)
  {
    SanitizedIsClean(s);
    SanitizedKeeps(Sanitized(s));
    if AllKept(s) {
      SanitizedKeeps(s);
    }
  }

  function Tail(i: nat): string {
    "-" + Decimal(i) + EXT
  }

  lemma TailIsKept(i: nat)
    ensures AllKept(Tail(i))
  {
    DecimalDigits(i);
    var d := Decimal(i);
    assert AllKept("-") && AllKept(EXT) && AllKept(d);
    KeptConcat("-", d);
    KeptConcat("-" + d, EXT);
  }

  lemma KeptConcat(s: string, t: string)
    requires AllKept(s) && AllKept(t)
    ensures AllKept(s + t)
  {}

  lemma FileNameOf(stem: string, count: int, i: nat)
    requires count > 1
    ensures KeyAt(stem, count, i) == stem + Tail(i)
    ensures Sanitized(KeyAt(stem, count, i)) == Sanitized(stem) + Tail(i)
  {
    assert KeyAt(stem, count, i) == stem + Tail(i);
    TailIsKept(i);
    SanitizedKeeps(Tail(i));
    SanitizedConcat(stem, Tail(i));
  }

  lemma TailDetermines(stem: string, i: nat, j: nat)
    requires stem + Tail(i) == stem + Tail(j)
    ensures i == j
  {
    var key := stem + Tail(i);
    assert |Decimal(i)| == |Decimal(j)|;
    assert key[|stem| + 1..|key| - |EXT|] == Decimal(i);
    assert (stem + Tail(j))[|stem| + 1..|key| - |EXT|] == Decimal(j);
    DecimalReadsBack(i);
    DecimalReadsBack(j);
  }

  /** Different objects of a size group have different keys and are written to different files, whatever prefix and label are. */
  lemma KeysAndFilesAreDistinct(stem: string, count: int, i: nat, j: nat)
    requires i < KeyCount(count) && j < KeyCount(count) && i != j
    ensures KeyAt(stem, count, i) != KeyAt(stem, count, j)
    ensures Sanitized(KeyAt(stem, count, i)) != Sanitized(KeyAt(stem, count, j))
  {
    FileNameOf(stem, count, i);
    FileNameOf(stem, count, j);
    if stem + Tail(i) == stem + Tail(j) {
      TailDetermines(stem, i, j);
    }
    if Sanitized(stem) + Tail(i) == Sanitized(stem) + Tail(j) {
      TailDetermines(Sanitized(stem), i, j);
    }
  }
}
