/** escape, unescape, split and join. */
module Strings {

  const SPECIALS: string := "\\\"'"

  const SLASH: char := '\\'

  /** All the characters that are escaped: the caller's, and the three that always are. */
  function All(chars: string): string {
    chars + SPECIALS
  }

  function Count(c: char, s: string): nat {
    if s == [] then 0 else (if s[0] == c then 1 else 0) + Count(c, s[1..])
  }

  function Slashes(n: nat): (r: string)
    ensures |r| == n && forall i :: 0 <= i < n ==> r[i] == SLASH
  {
    seq(n, _ => SLASH)
  }

  // ------------------------------------------------------------------ functions

  /** One backslash for every time the character occurs among those to escape. */
  function EscapeChar(c: char, all: string): string {
    Slashes(Count(c, all)) + [c]
  }

  function Escape(s: string, chars: string): string {
    if s == [] then [] else EscapeChar(s[0], All(chars)) + Escape(s[1..], chars)
  }

  predicate Pair(s: string, chars: string) {
    |s| >= 2 && s[0] == SLASH && s[1] in All(chars)
  }

  function Unescape(s: string, chars: string): string {
    if s == [] then []
    else if Pair(s, chars) then [s[1]] + Unescape(s[2..], chars)
    else [s[0]] + Unescape(s[1..], chars)
  }

  function NonEmpty(buf: string): seq<string> {
    if buf == [] then [] else [buf]
  }

  predicate Quote(c: char) {
    c == '"' || c == '\''
  }

  /** The pieces of the rest of a string, with what was collected so far, inside or outside quotes. */
  function Split(s: string, f: char -> bool, flag: bool, buf: string): seq<string> {
    if s == [] then NonEmpty(buf)
    else if Quote(s[0]) then Split(s[1..], f, !flag, buf)
    else if s[0] == SLASH && |s| >= 2 then Split(s[2..], f, flag, buf + [s[1]])
    else if f(s[0]) && !flag then NonEmpty(buf) + Split(s[1..], f, flag, [])
    else Split(s[1..], f, flag, buf + [s[0]])
  }

  function Join(v: seq<string>, separator: string): string {
    if v == [] then "" else if |v| == 1 then v[0] else v[0] + separator + Join(v[1..], separator)
  }

  // ------------------------------------------------------------------ methods

  method EscapeString(s: string, chars: string) returns (r: string)
    ensures r == Escape(s, chars)
  {
    hide Count, Slashes;
    r := [];
    var all := chars + "\\\"'";
    var i := 0;
    while i < |s|
      invariant i <= |s| && r + Escape(s[i..], chars) == Escape(s, chars)
    {
      var marks := Marks(s[i], all);
      assert s[i..][1..] == s[i + 1..];
      assert r + (EscapeChar(s[i], All(chars)) + Escape(s[i + 1..], chars))
             == (r + marks + [s[i]]) + Escape(s[i + 1..], chars);
      r := r + marks + [s[i]];
      i := i + 1;
    }
  }

  /** The inner loop of escape. */
  method Marks(c: char, all: string) returns (r: string)
    ensures r == Slashes(Count(c, all))
  {
    r := [];
    var j := 0;
    while j < |all|
      invariant j <= |all| && |r| + Count(c, all[j..]) == Count(c, all) && r == Slashes(|r|)
    {
      assert all[j..][1..] == all[j + 1..];
      if c == all[j] {
        r := r + ['\\'];
      }
      j := j + 1;
    }
  }

  lemma UnescapeStep(rest: string, chars: string, r: string)
    requires rest != []
    ensures Pair(rest, chars) ==> r + Unescape(rest, chars) == (r + [rest[1]]) + Unescape(rest[2..], chars)
    ensures !Pair(rest, chars) ==> r + Unescape(rest, chars) == (r + [rest[0]]) + Unescape(rest[1..], chars)
  {
  }

  method UnescapeString(s: string, chars: string) returns (r: string)
    ensures r == Unescape(s, chars)
  {
    r := [];
    var i := 0;
    while i < |s|
      invariant i <= |s| && r + Unescape(s[i..], chars) == Unescape(s, chars)
    {
      ghost var rest := s[i..];
      assert rest[1..] == s[i + 1..];
      if s[i] == '\\' && i < |s| - 1 && s[i + 1] in chars + "\\\"'" {
        UnescapeStep(rest, chars, r);
        assert rest[2..] == s[i + 2..];
        i := i + 1;
        r := r + [s[i]];
      } else {
        UnescapeStep(rest, chars, r);
        r := r + [s[i]];
      }
      i := i + 1;
    }
  }

  method SplitString(str: string, f: char -> bool) returns (vec: seq<string>)
    ensures vec == Split(str, f, false, [])
  {
    var flag := false;
    vec := [];
    var buf: string := [];
    var i := 0;
    while i < |str|
      invariant i <= |str| && vec + Split(str[i..], f, flag, buf) == Split(str, f, false, [])
    {
      var ch := str[i];
      ghost var rest := str[i..];
      assert rest[1..] == str[i + 1..];
      if ch == '"' || ch == '\'' {
        flag := !flag;
      } else if ch == '\\' && i < |str| - 1 {
        assert rest[2..] == str[i + 2..];
        i := i + 1;
        buf := buf + [str[i]];
      } else if f(ch) && !flag {
        if buf != [] {
          vec := vec + [buf];
        }
        buf := [];
      } else {
        buf := buf + [ch];
      }
      i := i + 1;
    }
    if buf != [] {
      vec := vec + [buf];
    }
  }

  method JoinStrings(v: seq<string>, separator: string) returns (r: string)
    ensures r == Join(v, separator)
  {
    if |v| == 0 {
      return "";
    }
    r := v[0];
    JoinFollows(v, separator);
    var i := 1;
    while i < |v|
      invariant 1 <= i <= |v| && Join(v, separator) == r + Following(v[i..], separator)
    {
      assert v[i..][1..] == v[i + 1..];
      r := r + separator + v[i];
      i := i + 1;
    }
  }

  /** What join appends after an element. */
  function Following(v: seq<string>, separator: string): string {
    if v == [] then "" else separator + v[0] + Following(v[1..], separator)
  }

  lemma {:induction false} JoinFollows(v: seq<string>, separator: string)
    requires v != []
    ensures Join(v, separator) == v[0] + Following(v[1..], separator)
  {
    if |v| > 1 {
      JoinFollows(v[1..], separator);
      assert v[0] + separator + (v[1] + Following(v[2..], separator))
             == v[0] + (separator + v[1] + Following(v[2..], separator));
      assert v[1..][1..] == v[2..];
    } else {
      assert v[0] + [] == v[0];
    }
  }

  // ------------------------------------------------------------------ unescape after escape

  /** No character of s occurs twice among those to escape. */
  ghost predicate EscapedOnce(s: string, chars: string) {
    forall i :: 0 <= i < |s| ==> Count(s[i], All(chars)) <= 1
  }

  lemma {:induction false} CountMember(c: char, s: string)
    ensures Count(c, s) > 0 <==> c in s
  {
    if s != [] {
      CountMember(c, s[1..]);
      assert s == [s[0]] + s[1..];
    }
  }

  lemma {:induction false} CountAppend(c: char, a: string, b: string)
    ensures Count(c, a + b) == Count(c, a) + Count(c, b)
  {
    if a == [] {
      assert a + b == b;
    } else {
      CountAppend(c, a[1..], b);
      assert (a + b)[1..] == a[1..] + b;
    }
  }

  lemma SlashIsSpecial(chars: string)
    ensures SLASH in All(chars) && Count(SLASH, All(chars)) >= 1
  {
    assert SPECIALS[0] == SLASH;
    assert All(chars)[|chars|] == SLASH;
    CountMember(SLASH, All(chars));
  }

  /** A character escaped at most once comes back, whatever follows. */
  lemma CharRoundTrip(c: char, t: string, chars: string)
    requires Count(c, All(chars)) <= 1
    ensures Unescape(EscapeChar(c, All(chars)) + t, chars) == [c] + Unescape(t, chars)
  {
    var e := EscapeChar(c, All(chars)) + t;
    CountMember(c, All(chars));
    if Count(c, All(chars)) == 0 {
      SlashIsSpecial(chars);
      assert e == [c] + t && e[1..] == t;
    } else {
      assert e == [SLASH, c] + t && e[2..] == t;
    }
  }

  lemma {:induction false} RoundTripBefore(s: string, t: string, chars: string)
    requires EscapedOnce(s, chars)
    ensures Unescape(Escape(s, chars) + t, chars) == s + Unescape(t, chars)
  {
    if s == [] {
      assert Escape(s, chars) + t == t;
    } else {
      RoundTripBefore(s[1..], t, chars);
      var e := EscapeChar(s[0], All(chars));
      CharRoundTrip(s[0], Escape(s[1..], chars) + t, chars);
      assert Escape(s, chars) + t == e + (Escape(s[1..], chars) + t);
      assert [s[0]] + (s[1..] + Unescape(t, chars)) == s + Unescape(t, chars);
    }
  }

  lemma {:induction false} EscapeAppend(a: string, b: string, chars: string)
    ensures Escape(a + b, chars) == Escape(a, chars) + Escape(b, chars)
  {
    hide EscapeChar, All;
    if a == [] {
      assert a + b == b;
    } else {
      EscapeAppend(a[1..], b, chars);
      assert (a + b)[1..] == a[1..] + b;
      var e := EscapeChar(a[0], All(chars));
      assert e + (Escape(a[1..], chars) + Escape(b, chars)) == (e + Escape(a[1..], chars)) + Escape(b, chars);
    }
  }

  /** The number of backslashes a string begins with. */
  function Lead(s: string): nat {
    if s != [] && s[0] == SLASH then 1 + Lead(s[1..]) else 0
  }

  lemma {:induction false} LeadSplit(s: string)
    ensures Lead(s) <= |s| && s == Slashes(Lead(s)) + s[Lead(s)..]
    ensures s[Lead(s)..] == [] || s[Lead(s)..][0] != SLASH
  {
    hide Slashes;
    if s != [] && s[0] == SLASH {
      LeadSplit(s[1..]);
      var j := Lead(s[1..]);
      var u := s[j + 1..];
      assert s[1..][j..] == u;
      OneRun(1, j, u);
      assert s == Slashes(1) + s[1..];
    } else {
      assert s == Slashes(0) + s && s[0..] == s;
    }
  }

  /** A run of backslashes is halved; an odd one is kept unless what follows it is escaped by it. */
  lemma {:induction false} UnescapeRun(n: nat, rest: string, chars: string)
    requires rest == [] || rest[0] != SLASH
    ensures Lead(Unescape(Slashes(n) + rest, chars))
            == n / 2 + if n % 2 == 1 && !(rest != [] && rest[0] in All(chars)) then 1 else 0
    decreases n
  {
    var e := Slashes(n) + rest;
    if n == 0 {
      assert e == rest;
    } else if n == 1 {
      assert e[0] == SLASH && e[1..] == rest;
      if Pair(e, chars) {
        assert e[1] == rest[0];
      }
    } else {
      SlashIsSpecial(chars);
      assert e[0] == SLASH && e[1] == SLASH && e[2..] == Slashes(n - 2) + rest;
      UnescapeRun(n - 2, rest, chars);
    }
  }

  lemma EscapeCons(s: string, chars: string)
    ensures s == [] ==> Escape(s, chars) == []
    ensures s != [] ==> Escape(s, chars) == Slashes(Count(s[0], All(chars))) + ([s[0]] + Escape(s[1..], chars))
  {
  }

  lemma {:induction false} EscapeSlashes(j: nat, u: string, chars: string)
    ensures Escape(Slashes(j) + u, chars) == Slashes(j * (Count(SLASH, All(chars)) + 1)) + Escape(u, chars)
  {
    hide Count, All, Escape, Slashes;
    var m := Count(SLASH, All(chars));
    var s := Slashes(j) + u;
    if j == 0 {
      assert s == u;
      OneRun(0, 0, Escape(u, chars));
      assert Slashes(0) + Escape(u, chars) == Escape(u, chars);
    } else {
      EscapeSlashes(j - 1, u, chars);
      EscapeCons(s, chars);
      assert s[0] == SLASH && s[1..] == Slashes(j - 1) + u;
      var rest := Slashes((j - 1) * (m + 1)) + Escape(u, chars);
      assert Slashes(m) + ([SLASH] + rest) == Slashes(m + 1) + rest;
      OneRun(m + 1, (j - 1) * (m + 1), Escape(u, chars));
      assert (m + 1) + (j - 1) * (m + 1) == j * (m + 1);
    }
  }

  lemma OneRun(a: nat, b: nat, rest: string)
    ensures Slashes(a) + (Slashes(b) + rest) == Slashes(a + b) + rest
  {
  }

  /** A string whose first character is escaped more than once does not come back. */
  lemma FirstLost(s: string, chars: string)
    requires s != [] && Count(s[0], All(chars)) >= 2
    ensures Unescape(Escape(s, chars), chars) != s
  {
    hide Escape, Unescape, Count, All, Slashes;
    var j, m := Lead(s), Count(SLASH, All(chars));
    LeadSplit(s);
    var u := s[j..];
    EscapeSlashes(j, u, chars);
    var run := j * (m + 1);
    LeadAtLeast(s, m);
    if u == [] {
      assert Escape(u, chars) == [] by { EscapeCons(u, chars); }
      UnescapeRun(run, [], chars);
    } else {
      var d := Count(u[0], All(chars));
      CountMember(u[0], All(chars));
      var rest := [u[0]] + Escape(u[1..], chars);
      EscapeCons(u, chars);
      OneRun(run, d, rest);
      UnescapeRun(run + d, rest, chars);
      assert j == 0 ==> run == 0 && s[0] == u[0];
    }
  }

  lemma LeadAtLeast(s: string, m: nat)
    requires s != []
    ensures Lead(s) * (m + 1) >= 0
    ensures Lead(s) >= 1 ==> s[0] == SLASH && (m >= 2 ==> Lead(s) * (m + 1) >= 3 * Lead(s))
  {
    if Lead(s) >= 1 && m >= 2 {
      var j := Lead(s);
      assert j * (m + 1) == j * (m - 2) + 3 * j;
    }
  }

  /** A string comes back from escape and unescape if and only if none of its characters occurs twice among
      those to escape. */
  lemma UnescapeEscapeExactly(s: string, chars: string)
    ensures Unescape(Escape(s, chars), chars) == s <==> EscapedOnce(s, chars)
  {
    if EscapedOnce(s, chars) {
      RoundTripBefore(s, [], chars);
      assert Escape(s, chars) + [] == Escape(s, chars) && s + [] == s;
    } else {
      var k := FirstTwice(s, chars);
      RoundTripBefore(s[..k], Escape(s[k..], chars), chars);
      EscapeAppend(s[..k], s[k..], chars);
      assert s == s[..k] + s[k..];
      FirstLost(s[k..], chars);
      var back := Unescape(Escape(s[k..], chars), chars);
      assert (s[..k] + back)[k..] == back;
    }
  }

  lemma FirstTwice(s: string, chars: string) returns (k: nat)
    requires !EscapedOnce(s, chars)
    ensures k < |s| && Count(s[k], All(chars)) >= 2 && EscapedOnce(s[..k], chars)
  {
    k := 0;
    while k < |s| && Count(s[k], All(chars)) <= 1
      invariant k <= |s| && forall i :: 0 <= i < k ==> Count(s[i], All(chars)) <= 1
    {
      k := k + 1;
    }
  }

  ghost predicate NoDuplicates(s: string) {
    forall c :: Count(c, s) <= 1
  }

  /** Every string comes back if and only if the characters to escape are distinct. */
  lemma AlwaysComesBack(chars: string)
    ensures (forall s :: Unescape(Escape(s, chars), chars) == s) <==> NoDuplicates(All(chars))
  {
    forall s ensures Unescape(Escape(s, chars), chars) == s <==> EscapedOnce(s, chars) {
      UnescapeEscapeExactly(s, chars);
    }
    if !NoDuplicates(All(chars)) {
      var c :| Count(c, All(chars)) > 1;
      UnescapeEscapeExactly([c], chars);
      assert !EscapedOnce([c], chars) by { assert [c][0] == c; }
    } else {
      forall s ensures EscapedOnce(s, chars) {
      }
    }
  }

  // ------------------------------------------------------------------ split after escape and join

  /** The non-empty pieces between separators, with nothing special about quotes and backslashes. */
  function Pieces(s: string, f: char -> bool, buf: string): seq<string> {
    if s == [] then NonEmpty(buf)
    else if f(s[0]) then NonEmpty(buf) + Pieces(s[1..], f, [])
    else Pieces(s[1..], f, buf + [s[0]])
  }

  predicate SeparatesPlain(f: char -> bool) {
    !f(SLASH) && !f('"') && !f('\'')
  }

  lemma SpecialCount(c: char)
    ensures Count(c, All("")) == if c == SLASH || Quote(c) then 1 else 0
  {
    assert All("") == [SLASH, '"', '\''];
    assert Count(c, ['\'']) == (if c == '\'' then 1 else 0);
    assert ['"', '\''][1..] == ['\''] && [SLASH, '"', '\''][1..] == ['"', '\''];
  }

  /** Splitting an escaped string gives exactly the non-empty pieces of the string. */
  lemma {:induction false} SplitEscapedPieces(s: string, f: char -> bool, buf: string)
    requires SeparatesPlain(f)
    ensures Split(Escape(s, ""), f, false, buf) == Pieces(s, f, buf)
  {
    if s != [] {
      var c, t := s[0], Escape(s[1..], "");
      SpecialCount(c);
      if c == SLASH || Quote(c) {
        assert Escape(s, "") == [SLASH, c] + t;
        assert ([SLASH, c] + t)[2..] == t;
        SplitEscapedPieces(s[1..], f, buf + [c]);
      } else {
        assert Escape(s, "") == [c] + t;
        assert ([c] + t)[1..] == t;
        SplitEscapedPieces(s[1..], f, if f(c) then [] else buf + [c]);
      }
    }
  }

  function Is(separator: char): char -> bool {
    c => c == separator
  }

  function EscapeAll(fields: seq<string>, chars: string): seq<string> {
    if fields == [] then [] else [Escape(fields[0], chars)] + EscapeAll(fields[1..], chars)
  }

  function Kept(fields: seq<string>): seq<string> {
    if fields == [] then [] else NonEmpty(fields[0]) + Kept(fields[1..])
  }

  lemma CharCollected(c: char, separator: char, t: string, buf: string)
    requires separator !in SPECIALS
    ensures Split(EscapeChar(c, All([separator])) + t, Is(separator), false, buf)
            == Split(t, Is(separator), false, buf + [c])
  {
    SeparatorCount(c, separator);
    var e := EscapeChar(c, All([separator])) + t;
    if c == SLASH || Quote(c) || c == separator {
      assert e == [SLASH, c] + t && e[2..] == t;
    } else {
      assert e == [c] + t && e[1..] == t;
    }
  }

  /** An escaped field is collected as it was. */
  lemma {:induction false} FieldCollected(s: string, separator: char, t: string, buf: string)
    requires separator !in SPECIALS
    ensures Split(Escape(s, [separator]) + t, Is(separator), false, buf) == Split(t, Is(separator), false, buf + s)
  {
    hide Split, EscapeChar;
    if s == [] {
      assert Escape(s, [separator]) + t == t && buf + s == buf;
    } else {
      var e, u := EscapeChar(s[0], All([separator])), Escape(s[1..], [separator]) + t;
      CharCollected(s[0], separator, u, buf);
      FieldCollected(s[1..], separator, t, buf + [s[0]]);
      assert Escape(s, [separator]) + t == e + u;
      assert buf + [s[0]] + s[1..] == buf + s;
    }
  }

  lemma SeparatorCount(c: char, separator: char)
    requires separator !in SPECIALS
    ensures Count(c, All([separator])) == if c == SLASH || Quote(c) || c == separator then 1 else 0
  {
    SpecialCount(c);
    assert All([separator]) == [separator] + All("");
    assert All("") == SPECIALS;
    assert ([separator] + All(""))[1..] == All("");
    assert SPECIALS[0] == SLASH && SPECIALS[1] == '"' && SPECIALS[2] == '\'';
  }

  lemma {:induction false} SplitJoined(fields: seq<string>, separator: char)
    requires separator !in SPECIALS
    ensures Split(Join(EscapeAll(fields, [separator]), [separator]), Is(separator), false, []) == Kept(fields)
  {
    if fields != [] {
      var e, rest := Escape(fields[0], [separator]), EscapeAll(fields[1..], [separator]);
      var v := EscapeAll(fields, [separator]);
      assert v[0] == e && v[1..] == rest;
      assert SPECIALS[0] == SLASH && SPECIALS[1] == '"' && SPECIALS[2] == '\'';
      if |fields| == 1 {
        FieldCollected(fields[0], separator, [], []);
        assert e + [] == e && [] + fields[0] == fields[0];
        assert Kept(fields[1..]) == [];
      } else {
        var t := [separator] + Join(rest, [separator]);
        assert Join(v, [separator]) == e + t;
        FieldCollected(fields[0], separator, t, []);
        assert [] + fields[0] == fields[0] && t[1..] == Join(rest, [separator]);
        SplitJoined(fields[1..], separator);
      }
    }
  }

  /** For a special separator two plain fields run together. */
  lemma SpecialSeparatorFails(separator: char)
    requires separator in SPECIALS
    ensures Split(Join(EscapeAll(["a", "b"], [separator]), [separator]), Is(separator), false, []) != Kept(["a", "b"])
  {
    assert separator == SLASH || separator == '"' || separator == '\'';
    PlainField('a', separator);
    PlainField('b', separator);
    var fields, last: seq<string> := ["a", "b"], ["b"];
    assert fields[1..] == last && last[1..] == [];
    assert EscapeAll(last, [separator]) == last;
    assert EscapeAll(fields, [separator]) == fields;
    assert Join(last, [separator]) == "b";
    var s := Join(fields, [separator]);
    assert s == ['a', separator, 'b'];
    var t, u: string := [separator, 'b'], ['b'];
    assert s[1..] == t && t[1..] == u && u[1..] == [] && t[2..] == [];
    assert "a" + ['b'] == "ab" && [] + ['a'] == "a";
    assert separator != SLASH ==> Split(u, Is(separator), true, "a") == ["ab"];
    assert Split(t, Is(separator), false, "a") == ["ab"];
    assert Split(s, Is(separator), false, []) == ["ab"];
    assert Kept(last) == last && Kept(fields) == fields;
  }

  lemma PlainField(c: char, separator: char)
    requires separator in SPECIALS && c !in SPECIALS
    ensures Escape([c], [separator]) == [c]
  {
    CountAppend(c, [separator], SPECIALS);
    CountMember(c, SPECIALS);
    assert [c][1..] == [];
  }

  /** Splitting the join of escaped fields gives the non-empty fields back, for all fields, if and only if the
      separator is none of the three special characters. */
  lemma SplitJoinExactly(separator: char)
    ensures (forall fields :: Split(Join(EscapeAll(fields, [separator]), [separator]), Is(separator), false, [])
                              == Kept(fields))
            <==> separator !in SPECIALS
  {
    if separator in SPECIALS {
      SpecialSeparatorFails(separator);
    } else {
      forall fields ensures Split(Join(EscapeAll(fields, [separator]), [separator]), Is(separator), false, [])
                            == Kept(fields) {
        SplitJoined(fields, separator);
      }
    }
  }

  // ------------------------------------------------------------------ quotes, and what join is

  /** Nothing in t means anything to split inside quotes. */
  predicate Plain(t: string) {
    forall i :: 0 <= i < |t| ==> t[i] != SLASH && !Quote(t[i])
  }

  /** Inside quotes an escaped text is collected as it was, separators and all. */
  lemma {:induction false} QuotedCollected(t: string, chars: string, f: char -> bool, rest: string, buf: string)
    requires EscapedOnce(t, chars)
    ensures Split(Escape(t, chars) + rest, f, true, buf) == Split(rest, f, true, buf + t)
  {
    hide Split, EscapeChar;
    if t == [] {
      assert Escape(t, chars) + rest == rest && buf + t == buf;
    } else {
      var e, u := EscapeChar(t[0], All(chars)), Escape(t[1..], chars) + rest;
      QuotedChar(t[0], chars, f, u, buf);
      QuotedCollected(t[1..], chars, f, rest, buf + [t[0]]);
      assert Escape(t, chars) + rest == e + u;
      assert buf + [t[0]] + t[1..] == buf + t;
    }
  }

  lemma QuotedChar(c: char, chars: string, f: char -> bool, u: string, buf: string)
    requires Count(c, All(chars)) <= 1
    ensures Split(EscapeChar(c, All(chars)) + u, f, true, buf) == Split(u, f, true, buf + [c])
  {
    var e := EscapeChar(c, All(chars)) + u;
    CountMember(c, All(chars));
    if Count(c, All(chars)) == 0 {
      PlainOutside(c, chars);
      assert e == [c] + u && e[1..] == u;
    } else {
      assert e == [SLASH, c] + u && e[2..] == u;
    }
  }

  lemma PlainOutside(c: char, chars: string)
    requires c !in All(chars)
    ensures c != SLASH && !Quote(c)
  {
    var all := All(chars);
    assert all[|chars|] == SLASH && all[|chars| + 1] == '"' && all[|chars| + 2] == '\'';
  }

  /** A quoted text, with what is special in it escaped, goes into the piece as it is, whatever separates the
      pieces, and splitting goes on behind it. */
  lemma QuotedSection(q: char, r: char, t: string, chars: string, f: char -> bool, rest: string, buf: string)
    requires Quote(q) && Quote(r) && EscapedOnce(t, chars)
    ensures Split([q] + Escape(t, chars) + [r] + rest, f, false, buf) == Split(rest, f, false, buf + t)
  {
    var e := Escape(t, chars);
    assert [q] + e + [r] + rest == [q] + (e + ([r] + rest));
    assert ([q] + (e + ([r] + rest)))[1..] == e + ([r] + rest);
    QuotedCollected(t, chars, f, [r] + rest, buf);
    assert ([r] + rest)[1..] == rest;
  }

  /** If it is never closed everything behind the quote is one piece. */
  lemma QuoteNeverClosed(q: char, t: string, chars: string, f: char -> bool, buf: string)
    requires Quote(q) && EscapedOnce(t, chars)
    ensures Split([q] + Escape(t, chars), f, false, buf) == NonEmpty(buf + t)
  {
    var e := Escape(t, chars);
    assert ([q] + e)[1..] == e && e + [] == e;
    QuotedCollected(t, chars, f, [], buf);
  }

  lemma {:induction false} PlainEscapes(t: string)
    requires Plain(t)
    ensures Escape(t, "") == t && EscapedOnce(t, "")
  {
    forall i | 0 <= i < |t| ensures Count(t[i], All("")) == 0 {
      SpecialCount(t[i]);
    }
    if t != [] {
      PlainEscapes(t[1..]);
      assert t == [t[0]] + t[1..];
      assert Slashes(0) + [t[0]] == [t[0]];
    }
  }

  /** A text with nothing special in it needs no escape inside quotes; and a backslash at the very end stands
      for itself. */
  lemma PlainSection(q: char, r: char, t: string, f: char -> bool, rest: string, buf: string)
    requires Quote(q) && Quote(r) && Plain(t)
    ensures Split([q] + t + [r] + rest, f, false, buf) == Split(rest, f, false, buf + t)
    ensures Split([q] + t, f, false, buf) == NonEmpty(buf + t)
    ensures Split([q] + t + [SLASH], f, false, buf) == NonEmpty(buf + t + [SLASH])
  {
    PlainEscapes(t);
    QuotedSection(q, r, t, "", f, rest, buf);
    QuoteNeverClosed(q, t, "", f, buf);
    assert [q] + t + [SLASH] == [q] + (t + [SLASH]);
    assert ([q] + (t + [SLASH]))[1..] == t + [SLASH];
    QuotedCollected(t, "", f, [SLASH], buf);
    assert [SLASH][1..] == [];
  }

  /** join puts the separator between two parts of a list, and nothing else. */
  lemma {:induction false} JoinTogether(v: seq<string>, w: seq<string>, separator: string)
    requires v != [] && w != []
    ensures Join(v + w, separator) == Join(v, separator) + separator + Join(w, separator)
    ensures Join([v[0]], separator) == v[0]
  {
    if |v| == 1 {
      assert (v + w)[1..] == w;
      assert v[0] + separator + Join(w, separator) == Join(v, separator) + separator + Join(w, separator);
    } else {
      JoinTogether(v[1..], w, separator);
      assert (v + w)[1..] == v[1..] + w;
      var j, k := Join(v[1..], separator), Join(w, separator);
      assert v[0] + separator + (j + separator + k) == (v[0] + separator + j) + separator + k;
    }
  }
}
