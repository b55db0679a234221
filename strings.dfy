/** The handful of Go `strings` operations that the image-reference code relies on, over
    `string` (a `seq<char>`). Case mapping is restricted to ASCII letters. */
module GoStrings {

  /** strings.IndexRune: the index of the first occurrence of `c`, or -1 when there is none. */
  function IndexRune(s: string, c: char): (i: int)
    ensures -1 <= i < |s|
    ensures i == -1 <==> c !in s
    ensures 0 <= i ==> s[i] == c && c !in s[..i]
  {
    if |s| == 0 then -1
    else if s[0] == c then 0
    else
      var j := IndexRune(s[1..], c);
      if j == -1 then -1
      else
        assert s[..j + 1] == [s[0]] + s[1..][..j];
        j + 1
  }

  /** The index of a first occurrence is unique: whichever index has `c` and no earlier `c`
      is the one IndexRune reports. */
  lemma IndexRuneIsFirst(s: string, c: char, i: nat)
    requires i < |s| && s[i] == c && c !in s[..i]
    ensures IndexRune(s, c) == i
  {
    assert s[..i + 1][i] == c;
  }

  /** strings.ContainsAny: some character of `s` is one of `chars`. */
  function ContainsAny(s: string, chars: string): (b: bool)
    ensures b <==> exists k :: 0 <= k < |s| && s[k] in chars
  {
    if |s| == 0 then false
    else if s[0] in chars then true
    else
      assert forall k :: 1 <= k < |s| ==> s[k] == s[1..][k - 1];
      ContainsAny(s[1..], chars)
  }

  /** strings.HasPrefix. */
  predicate HasPrefix(s: string, prefix: string) {
    |prefix| <= |s| && s[..|prefix|] == prefix
  }

  /** strings.TrimPrefix: `s` without one leading `prefix`, or `s` itself when it does not start with it. */
  function TrimPrefix(s: string, prefix: string): (t: string)
    ensures HasPrefix(s, prefix) ==> prefix + t == s
    ensures !HasPrefix(s, prefix) ==> t == s
  {
    if HasPrefix(s, prefix) then s[|prefix|..] else s
  }

  predicate IsUpperAscii(c: char) {
    'A' <= c <= 'Z'
  }

  /** unicode.ToLower on the ASCII letters: a capital becomes its small letter, anything else stays. */
  function ToLowerChar(c: char): (d: char)
    ensures !IsUpperAscii(d)
    ensures !IsUpperAscii(c) ==> d == c
    ensures IsUpperAscii(c) ==> 'a' <= d <= 'z' && d as int - c as int == 'a' as int - 'A' as int
  {
    if IsUpperAscii(c) then (c as int + 32) as char else c
  }

  /** strings.ToLower restricted to the ASCII letters: every character is mapped on its own. */
  function ToLower(s: string): (t: string)
    ensures |t| == |s|
    ensures forall k :: 0 <= k < |s| ==> t[k] == ToLowerChar(s[k])
  {
    if |s| == 0 then [] else [ToLowerChar(s[0])] + ToLower(s[1..])
  }

  /** No ASCII upper-case letter occurs in `s`. */
  predicate IsLowercase(s: string) {
    forall k :: 0 <= k < |s| ==> !IsUpperAscii(s[k])
  }

  /** `strings.ToLower(s) == s`, the test the source uses, holds exactly for the lower-case strings. */
  lemma ToLowerFixpoint(s: string)
    ensures ToLower(s) == s <==> IsLowercase(s)
  {
    if ToLower(s) == s {
      forall k | 0 <= k < |s| ensures !IsUpperAscii(s[k]) {
        assert ToLower(s)[k] == ToLowerChar(s[k]);
      }
    }
  }

  lemma LowercaseConcat(a: string, b: string)
    ensures IsLowercase(a + b) <==> IsLowercase(a) && IsLowercase(b)
  {
    if IsLowercase(a + b) {
      forall k | 0 <= k < |b| ensures !IsUpperAscii(b[k]) {
        assert (a + b)[|a| + k] == b[k];
      }
      forall k | 0 <= k < |a| ensures !IsUpperAscii(a[k]) {
        assert (a + b)[k] == a[k];
      }
    }
  }

  lemma LowercaseSuffix(s: string, i: nat)
    requires i <= |s| && IsLowercase(s)
    ensures IsLowercase(s[i..])
  {
    forall k | 0 <= k < |s| - i ensures !IsUpperAscii(s[i..][k]) {
      assert s[i..][k] == s[i + k];
    }
  }
}
