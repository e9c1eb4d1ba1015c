/** The two JavaScript string built-ins the chat client relies on: `String.prototype.trim`
    and the `<` comparison that `Array.prototype.sort` uses by default. */
module JsString {

  /** ECMAScript WhiteSpace and LineTerminator code points, which `trim` removes. */
  predicate IsJsSpace(c: char)
    ensures c < '\U{0080}' ==> (IsJsSpace(c) <==> c in {'\t', '\n', '\U{000B}', '\U{000C}', '\r', ' '})
    ensures IsJsSpace(c) ==> c != '_' && !('0' <= c <= '9') && !('a' <= c <= 'z') && !('A' <= c <= 'Z')
  {
    c in {'\t', '\n', '\U{000B}', '\U{000C}', '\r', ' ', '\U{00A0}', '\U{1680}',
          '\U{2028}', '\U{2029}', '\U{202F}', '\U{205F}', '\U{3000}', '\U{FEFF}'}
    || ('\U{2000}' <= c <= '\U{200A}')
  }

  /** Leading whitespace removed: a suffix of `s` that starts with a non-space. */
  function TrimStart(s: string): (r: string)
    ensures |r| <= |s| && r == s[|s| - |r|..]
    ensures forall i | 0 <= i < |s| - |r| :: IsJsSpace(s[i])
    ensures r != [] ==> !IsJsSpace(r[0])
    decreases |s|
  {
    if s != [] && IsJsSpace(s[0]) then TrimStart(s[1..]) else s
  }

  /** Trailing whitespace removed: a prefix of `s` that ends with a non-space. */
  function TrimEnd(s: string): (r: string)
    ensures |r| <= |s| && r == s[..|r|]
    ensures forall i | |r| <= i < |s| :: IsJsSpace(s[i])
    ensures r != [] ==> !IsJsSpace(r[|r| - 1])
    decreases |s|
  {
    if s != [] && IsJsSpace(s[|s| - 1]) then TrimEnd(s[..|s| - 1]) else s
  }

  /** `s.trim()`: leading and trailing whitespace removed. */
  function Trim(s: string): (r: string)
    ensures |r| <= |s|
    ensures r != [] ==> !IsJsSpace(r[0]) && !IsJsSpace(r[|r| - 1])
  {
    var t := TrimStart(s);
    var r := TrimEnd(t);
    assert r != [] ==> r[0] == t[0];
    r
  }

  /** `trim` keeps a contiguous part of `s` and removes only whitespace around it. */
  lemma TrimKeepsInnerPart(s: string)
    ensures var r, lead := Trim(s), |s| - |TrimStart(s)|;
            && lead + |r| <= |s|
            && r == s[lead..lead + |r|]
            && (forall i | 0 <= i < lead :: IsJsSpace(s[i]))
            && (forall i | lead + |r| <= i < |s| :: IsJsSpace(s[i]))
  {
    var t := TrimStart(s);
    var r := Trim(s);
    var lead := |s| - |t|;
    assert t == s[lead..];
    assert r == t[..|r|];
    forall i | lead + |r| <= i < |s|
      ensures IsJsSpace(s[i])
    {
      assert IsJsSpace(t[i - lead]);
    }
  }

  /** `trim` yields the empty string exactly when `s` is all whitespace. */
  lemma TrimEmptyIff(s: string)
    ensures Trim(s) == [] <==> forall i | 0 <= i < |s| :: IsJsSpace(s[i])
  {
    TrimKeepsInnerPart(s);
    var lead := |s| - |TrimStart(s)|;
    if Trim(s) != [] {
      assert s[lead] == Trim(s)[0];
    }
  }

  /** Trimming twice is trimming once. */
  lemma TrimIdempotent(s: string)
    ensures Trim(Trim(s)) == Trim(s)
  {
    var r := Trim(s);
    assert TrimStart(r) == r;
    assert TrimEnd(r) == r;
  }

  /** `a < b` on strings: lexicographic on characters, a proper prefix first. */
  predicate Less(a: string, b: string)
    ensures a < b ==> Less(a, b)
    ensures b <= a ==> !Less(a, b)
    decreases |a|
  {
    if a == [] then b != []
    else if b == [] then false
    else if a[0] != b[0] then a[0] < b[0]
    else Less(a[1..], b[1..])
  }

  lemma {:induction false} LessIrreflexive(a: string)
    ensures !Less(a, a)
    decreases |a|
  {
    if a != [] {
      LessIrreflexive(a[1..]);
    }
  }

  /** Of two different strings exactly one is the lesser. */
  lemma {:induction false} LessTrichotomy(a: string, b: string)
    ensures a != b ==> Less(a, b) || Less(b, a)
    ensures !(Less(a, b) && Less(b, a))
    decreases |a|
  {
    if a != [] && b != [] && a[0] == b[0] {
      LessTrichotomy(a[1..], b[1..]);
      assert a != b ==> a[1..] != b[1..] by {
        if a[1..] == b[1..] {
          assert a == [a[0]] + a[1..] && b == [b[0]] + b[1..];
        }
      }
    }
  }
}
