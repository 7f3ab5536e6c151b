/** Request identities: a UUID that callers may write with capitals and surrounding space, and its one canonical spelling. */
module RequestIdentity {
  import opened Options

  /** The white space that trimming removes. */
  predicate IsSpace(c: char) {
    var n := c as int;
    || 9 <= n <= 13 || n == 32 || n == 0xA0 || n == 0x1680 || 0x2000 <= n <= 0x200A
    || n == 0x2028 || n == 0x2029 || n == 0x202F || n == 0x205F || n == 0x3000 || n == 0xFEFF
  }

  function TrimStart(s: string): (r: string)
    ensures r != [] ==> !IsSpace(r[0])
    ensures |r| <= |s|
  {
    if s != [] && IsSpace(s[0]) then TrimStart(s[1..]) else s
  }

  function TrimEnd(s: string): (r: string)
    ensures r != [] ==> !IsSpace(r[|r| - 1])
    ensures r <= s
  {
    if s != [] && IsSpace(s[|s| - 1]) then TrimEnd(s[..|s| - 1]) else s
  }

  function Trim(s: string): string {
    TrimEnd(TrimStart(s))
  }

  lemma TrimIsIdempotent(s: string)
    ensures Trim(Trim(s)) == Trim(s)
  {}

  predicate AllSpace(s: string) {
    forall i :: 0 <= i < |s| ==> IsSpace(s[i])
  }

  predicate NoOuterSpace(s: string) {
    s != "" ==> !IsSpace(s[0]) && !IsSpace(s[|s| - 1])
  }

  lemma {:induction false} TrimsStart(a: string, s: string)
    requires AllSpace(a) && (s != "" ==> !IsSpace(s[0]))
    ensures TrimStart(a + s) == s
  {
    hide IsSpace;
    if a != "" {
      assert (a + s)[0] == a[0] && (a + s)[1..] == a[1..] + s;
      TrimsStart(a[1..], s);
    } else {
      assert a + s == s;
    }
  }

  lemma {:induction false} TrimsEnd(s: string, b: string)
    requires AllSpace(b) && (s != "" ==> !IsSpace(s[|s| - 1]))
    ensures TrimEnd(s + b) == s
  {
    hide IsSpace;
    if b != "" {
      var n := |b| - 1;
      assert (s + b)[|s| + n] == b[n] && (s + b)[..|s| + n] == s + b[..n];
      TrimsEnd(s, b[..n]);
    } else {
      assert s + b == s;
    }
  }

  /** Trimming takes the space at both ends and nothing else. */
  lemma TrimExactly(a: string, s: string, b: string)
    requires AllSpace(a) && AllSpace(b) && NoOuterSpace(s)
    ensures Trim(a + s + b) == s
  {
    hide IsSpace;
    if s == "" {
      assert a + s + b == (a + b) + "" && AllSpace(a + b);
      TrimsStart(a + b, "");
    } else {
      assert a + s + b == a + (s + b) && (s + b)[0] == s[0];
      TrimsStart(a, s + b);
      TrimsEnd(s, b);
    }
  }

  lemma {:induction false} StartIsTrimmed(s: string) returns (a: string)
    ensures AllSpace(a) && s == a + TrimStart(s)
  {
    hide IsSpace;
    a := "";
    if s != "" && IsSpace(s[0]) {
      var rest := StartIsTrimmed(s[1..]);
      a := [s[0]] + rest;
      assert s == [s[0]] + s[1..];
    }
  }

  lemma {:induction false} EndIsTrimmed(s: string) returns (b: string)
    ensures AllSpace(b) && s == TrimEnd(s) + b
  {
    hide IsSpace;
    b := "";
    if s != "" && IsSpace(s[|s| - 1]) {
      var rest := EndIsTrimmed(s[..|s| - 1]);
      b := rest + [s[|s| - 1]];
      assert s == s[..|s| - 1] + [s[|s| - 1]];
    }
  }

  /** Every text is its trimmed form with space around it. */
  lemma TrimIsInside(s: string) returns (a: string, b: string)
    ensures AllSpace(a) && AllSpace(b) && s == a + Trim(s) + b && NoOuterSpace(Trim(s))
  {
    hide IsSpace, AllSpace, TrimStart, TrimEnd;
    a := StartIsTrimmed(s);
    b := EndIsTrimmed(TrimStart(s));
    var t := Trim(s);
    assert t != "" ==> t[0] == TrimStart(s)[0];
  }

  function LowerChar(c: char): char {
    if 'A' <= c <= 'Z' then c + ('a' - 'A') else c
  }

  function Lower(s: string): (r: string)
    ensures |r| == |s| && forall i :: 0 <= i < |s| ==> r[i] == LowerChar(s[i])
  {
    seq(|s|, i requires 0 <= i < |s| => LowerChar(s[i]))
  }

  predicate IsHex(c: char) {
    '0' <= c <= '9' || 'a' <= c <= 'f'
  }

  /** Lower-case text of the form 8-4-4-4-12 hex digits, with version 1 to 8 and variant 8 to b. */
  predicate IsUuid(s: string) {
    && |s| == 36
    && s[8] == '-' && s[13] == '-' && s[18] == '-' && s[23] == '-'
    && (forall i :: 0 <= i < 36 && i != 8 && i != 13 && i != 18 && i != 23 ==> IsHex(s[i]))
    && '1' <= s[14] <= '8'
    && (s[19] == '8' || s[19] == '9' || s[19] == 'a' || s[19] == 'b')
  }

  /** The identity under which a request is stored, or None when the text is not one. */
  function Canonical(raw: string): Option<string> {
    var lower := Lower(Trim(raw));
    if IsUuid(lower) then Some(lower) else None
  }

  /** A UUID in lower case has nothing to trim and nothing to lower. */
  lemma UuidIsPlain(s: string)
    requires IsUuid(s)
    ensures Trim(s) == s && Lower(s) == s
  {}

  /** An identity is read in any letter case and with any space around it. */
  lemma CapitalsAreRead(raw: string, a: string, s: string, b: string, id: string)
    requires raw == a + s + b && AllSpace(a) && AllSpace(b) && IsUuid(id)
    requires |s| == 36 && forall i :: 0 <= i < 36 ==> s[i] == id[i] || ('a' <= id[i] <= 'z' && s[i] as int == id[i] as int - 32)
    ensures Canonical(raw) == Some(id)
  {
    assert IsHex(id[0]) && IsHex(id[35]);
    TrimExactly(a, s, b);
    hide Trim, AllSpace;
    forall i | 0 <= i < 36
      ensures LowerChar(s[i]) == id[i]
    {
      assert id[i] == '-' || IsHex(id[i]);
    }
    hide IsUuid, LowerChar;
    assert Lower(s) == id;
  }

  /** A stored identity is its own canonical spelling. */
  lemma CanonicalIsFixed(raw: string)
    ensures Canonical(raw).Some? ==> Canonical(Canonical(raw).value) == Canonical(raw)
  {
    if Canonical(raw).Some? {
      UuidIsPlain(Canonical(raw).value);
    }
  }
}
