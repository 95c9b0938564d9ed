/**
 * C strings as the program uses them: NUL-terminated sequences of bytes,
 * compared with `strcmp` (ISO C11 section 7.24.4.2, bytes read as
 * `unsigned char`) and with `strcasecmp` restricted to ASCII case folding.
 */
module CString {

  /** One byte of a C string: an `unsigned char` other than the terminating NUL. */
  type CChar = b: int | 1 <= b < 256 witness 1

  /** The bytes of a C string, without its terminating NUL. */
  type CStr = seq<CChar>

  /** The byte at index `i`, reading the terminating NUL (and beyond) as 0. */
  function At(s: CStr, i: nat): int {
    if i < |s| then s[i] else 0
  }

  /** `a` and `b` agree on their first `k` bytes and the first pair that
      differs is at `k`, where `a` has the smaller byte (the terminator counting as 0). */
  ghost predicate LessAt(a: CStr, b: CStr, k: nat) {
    && k <= |a| && k <= |b|
    && (forall j :: 0 <= j < k ==> a[j] == b[j])
    && At(a, k) < At(b, k)
  }

  /** Byte-wise lexicographic order: `a` sorts strictly before `b`. */
  ghost predicate Less(a: CStr, b: CStr) {
    exists k: nat :: LessAt(a, b, k)
  }

  lemma LessOfHead(a: CStr, b: CStr)
    requires At(a, 0) != At(b, 0)
    ensures Less(a, b) <==> At(a, 0) < At(b, 0)
    ensures Less(b, a) <==> At(b, 0) < At(a, 0)
  {
    if At(a, 0) < At(b, 0) {
      assert LessAt(a, b, 0);
    } else {
      assert LessAt(b, a, 0);
    }
  }

  lemma LessOfTail(a: CStr, b: CStr)
    requires a != [] && b != [] && a[0] == b[0]
    ensures Less(a, b) <==> Less(a[1..], b[1..])
  {
    if Less(a, b) {
      var k: nat :| LessAt(a, b, k);
      assert k > 0;
      assert LessAt(a[1..], b[1..], k - 1);
    }
    if Less(a[1..], b[1..]) {
      var k: nat :| LessAt(a[1..], b[1..], k);
      assert LessAt(a, b, k + 1);
    }
  }

  /** `strcmp`: the difference of the first pair of differing bytes, so its
      sign orders `a` and `b` byte-wise lexicographically. */
  function StrCmp(a: CStr, b: CStr): (r: int)
    ensures r == 0 <==> a == b
    ensures r < 0 <==> Less(a, b)
    ensures r > 0 <==> Less(b, a)
    decreases |a|
  {
    if a != [] && b != [] && a[0] == b[0] then
      LessOfTail(a, b);
      LessOfTail(b, a);
      assert a == [a[0]] + a[1..] && b == [b[0]] + b[1..];
      StrCmp(a[1..], b[1..])
    else if a == [] && b == [] then
      0
    else
      LessOfHead(a, b);
      At(a, 0) - At(b, 0)
  }

  /** `Less` is a strict total order on C strings. */
  lemma LessIsStrictTotalOrder(a: CStr, b: CStr)
    ensures !Less(a, a)
    ensures !(Less(a, b) && Less(b, a))
    ensures a == b || Less(a, b) || Less(b, a)
  {
    var same := StrCmp(a, a);
    var r := StrCmp(a, b);
  }

  lemma LessTransitive(a: CStr, b: CStr, c: CStr)
    requires Less(a, b) && Less(b, c)
    ensures Less(a, c)
  {
    var k1: nat :| LessAt(a, b, k1);
    var k2: nat :| LessAt(b, c, k2);
    if k1 < k2 {
      assert LessAt(a, c, k1);
    } else if k2 < k1 {
      assert LessAt(a, c, k2);
    } else {
      assert LessAt(a, c, k1);
    }
  }

  /** `tolower` in the "C" locale: only the ASCII letters A-Z change. */
  function Lower(c: CChar): CChar {
    if 'A' as int <= c <= 'Z' as int then c + ('a' as int - 'A' as int) else c
  }

  /** The strings are equal once each byte is folded to lower case. */
  ghost predicate SameIgnoringCase(a: CStr, b: CStr) {
    |a| == |b| && forall i :: 0 <= i < |a| ==> Lower(a[i]) == Lower(b[i])
  }

  function LowerAt(s: CStr, i: nat): int {
    if i < |s| then Lower(s[i]) else 0
  }

  /** `strcasecmp` with ASCII case folding: zero exactly when the strings
      are equal ignoring case. */
  function StrCaseCmp(a: CStr, b: CStr): (r: int)
    ensures r == 0 <==> SameIgnoringCase(a, b)
    decreases |a|
  {
    if a != [] && b != [] && Lower(a[0]) == Lower(b[0]) then
      var r := StrCaseCmp(a[1..], b[1..]);
      assert SameIgnoringCase(a, b) ==> SameIgnoringCase(a[1..], b[1..]) by {
        if SameIgnoringCase(a, b) {
          forall i | 0 <= i < |a| - 1 ensures Lower(a[1..][i]) == Lower(b[1..][i]) {
            assert Lower(a[i + 1]) == Lower(b[i + 1]);
          }
        }
      }
      assert SameIgnoringCase(a[1..], b[1..]) ==> SameIgnoringCase(a, b) by {
        if SameIgnoringCase(a[1..], b[1..]) {
          forall i | 0 <= i < |a| ensures Lower(a[i]) == Lower(b[i]) {
            if i > 0 {
              assert Lower(a[1..][i - 1]) == Lower(b[1..][i - 1]);
            }
          }
        }
      }
      r
    else
      assert a != [] && b != [] ==> Lower(a[0]) != Lower(b[0]);
      LowerAt(a, 0) - LowerAt(b, 0)
  }
}
