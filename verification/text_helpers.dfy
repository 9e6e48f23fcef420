/**
 * The text helpers of the application: rendering a post's text as HTML (line breaks and
 * clickable links), random strings over a chosen alphabet, and deriving a username from a
 * display name. `Math.random` is replaced by the drawn numbers, passed in.
 */
module TextHelpers {
  import opened Strings

  // ---------------------------------------------------------------------------------------
  // formatContent

  /** `s` has `p` at position `i`. */
  predicate HasAt(s: string, i: int, p: string) {
    0 <= i && i + |p| <= |s| && s[i..i + |p|] == p
  }

  /** Length of the longest prefix of `s` without white space (`[^\s]*`). */
  function NonSpaceRun(s: string): (n: nat)
    ensures n <= |s|
    ensures forall k :: 0 <= k < n ==> !IsWhitespace(s[k])
    ensures n < |s| ==> IsWhitespace(s[n])
  {
    if s == [] || IsWhitespace(s[0]) then 0 else 1 + NonSpaceRun(s[1..])
  }

  /** Length of the match of `https?:\/\/[^\s]+` at the start of `s`, if it matches there:
      the scheme and `://`, then at least one character, as many as possible up to white space. */
  function UrlMatch(s: string): (m: int)
    ensures m == 0 || 8 <= m <= |s|
    ensures m > 0 ==> HasAt(s, 0, "http://") || HasAt(s, 0, "https://")
    ensures !HasAt(s, 0, "http://") && !HasAt(s, 0, "https://") ==> m == 0
  {
    if HasAt(s, 0, "https://") && NonSpaceRun(s[8..]) > 0 then 8 + NonSpaceRun(s[8..])
    else if HasAt(s, 0, "http://") && NonSpaceRun(s[7..]) > 0 then 7 + NonSpaceRun(s[7..])
    else 0
  }

  /** The replacement each link match gets. */
  function Anchor(url: string): string {
    "<a href=\"" + url + "\" target=\"_blank\" rel=\"noopener noreferrer\">" + url + "</a>"
  }

  /** The characters an anchor adds around the address. */
  const AnchorChars: set<char> :=
    {'<', 'a', ' ', 'h', 'r', 'e', 'f', '=', '"', 't', 'g', '_', 'b', 'l', 'n', 'k', '>', 'o', 'p', 'c', '/'}

  lemma AnchorCover(url: string)
    ensures forall c :: c in Anchor(url) ==> c in url || c in AnchorChars
  {
    var open, middle, close := "<a href=\"", "\" target=\"_blank\" rel=\"noopener noreferrer\">", "</a>";
    assert forall c :: c in open ==> c in AnchorChars;
    assert forall c :: c in middle ==> c in AnchorChars;
    assert forall c :: c in close ==> c in AnchorChars;
    assert Anchor(url) == open + url + middle + url + close;
  }

  /** The global link replacement, scanning left to right: a match is replaced and scanning
      resumes after it; elsewhere the character is kept. */
  function Linkify(s: string): (r: string)
    decreases |s|
  {
    if s == [] then []
    else
      var m := UrlMatch(s);
      if m > 0 then Anchor(s[..m]) + Linkify(s[m..]) else [s[0]] + Linkify(s[1..])
  }

  /** Every character of the linkified text comes from the text or from the anchor markup. */
  lemma {:induction false} LinkifyChars(s: string)
    decreases |s|
    ensures forall c :: c in Linkify(s) ==> c in s || c in AnchorChars
  {
    if s != [] {
      var m := UrlMatch(s);
      if m > 0 {
        AnchorCover(s[..m]);
        LinkifyChars(s[m..]);
        assert forall c :: c in s[..m] || c in s[m..] ==> c in s;
      } else {
        LinkifyChars(s[1..]);
        assert forall c :: c in s[1..] ==> c in s;
      }
    }
  }

  /** `formatContent`: line breaks become `<br>` first, then addresses become links. */
  function FormatContent(s: string): (r: string)
    ensures '\n' !in r
  {
    var t := ReplaceChar(s, '\n', "<br>");
    NewlineOutsideAnchor();
    LinkifyChars(t);
    Linkify(t)
  }

  lemma NewlineOutsideAnchor()
    ensures '\n' !in AnchorChars
  {
  }

  /** No `http://` or `https://` anywhere in `s`. */
  predicate NoScheme(s: string) {
    forall i :: 0 <= i < |s| ==> !HasAt(s, i, "http://") && !HasAt(s, i, "https://")
  }

  lemma LinkifyNoScheme(s: string)
    requires NoScheme(s)
    ensures Linkify(s) == s
  {
    assert s + [] == s;
    LinkifyPlainPrefix(s, []);
  }

  /** Text without line breaks and without addresses comes back unchanged. */
  lemma PlainTextUnchanged(s: string)
    requires '\n' !in s && NoScheme(s)
    ensures FormatContent(s) == s
  {
    LinkifyNoScheme(s);
  }

  lemma {:induction false} ReplaceCharAppend(a: string, b: string, c: char, rep: string)
    ensures ReplaceChar(a + b, c, rep) == ReplaceChar(a, c, rep) + ReplaceChar(b, c, rep)
    decreases |a|
  {
    if a != [] {
      var head := if a[0] == c then rep else [a[0]];
      assert (a + b)[0] == a[0] && (a + b)[1..] == a[1..] + b;
      ReplaceCharAppend(a[1..], b, c, rep);
      assert ReplaceChar(a + b, c, rep) == head + (ReplaceChar(a[1..], c, rep) + ReplaceChar(b, c, rep));
    } else {
      assert a + b == b;
    }
  }

  lemma RunOfNonSpace(s: string)
    requires forall k :: 0 <= k < |s| ==> !IsWhitespace(s[k])
    ensures NonSpaceRun(s) == |s|
  {
  }

  /** Text that is one address up to its end becomes a single link. */
  lemma WholeLink(scheme: string, rest: string)
    requires scheme == "http://" || scheme == "https://"
    requires rest != [] && forall k :: 0 <= k < |rest| ==> !IsWhitespace(rest[k])
    ensures Linkify(scheme + rest) == Anchor(scheme + rest)
  {
    var u := scheme + rest;
    WholeMatch(scheme, rest);
    assert u[..|u|] == u && u[|u|..] == [];
  }

  lemma WholeMatch(scheme: string, rest: string)
    requires scheme == "http://" || scheme == "https://"
    requires rest != [] && forall k :: 0 <= k < |rest| ==> !IsWhitespace(rest[k])
    ensures UrlMatch(scheme + rest) == |scheme + rest|
  {
    SchemeMatches(scheme, rest);
    RunOfNonSpace(rest);
  }

  /** The scheme at the start of `scheme + rest` is recognised as that scheme. */
  lemma SchemeMatches(scheme: string, rest: string)
    requires scheme == "http://" || scheme == "https://"
    ensures (scheme + rest)[|scheme|..] == rest
    ensures HasAt(scheme + rest, 0, scheme)
    ensures scheme == "http://" ==> !HasAt(scheme + rest, 0, "https://")
  {
    var u := scheme + rest;
    assert u[..|scheme|] == scheme;
    if scheme == "http://" && HasAt(u, 0, "https://") {
      CharAt(u, 0, "https://", 4);
    }
  }

  lemma CharAt(s: string, i: int, p: string, k: int)
    requires HasAt(s, i, p) && 0 <= k < |p|
    ensures s[i + k] == p[k]
  {
    assert s[i..i + |p|][k] == s[i + k];
  }

  /** Replacing the one occurrence of `c`, between two pieces without it. */
  lemma ReplaceSeparator(a: string, b: string, c: char, rep: string)
    requires c !in a && c !in b
    ensures ReplaceChar(a + [c] + b, c, rep) == a + rep + b
  {
    ReplaceCharAppend([c], b, c, rep);
    assert ReplaceChar([c], c, rep) == rep by {
      assert [c][1..] == [];
    }
    ReplaceCharAppend(a, [c] + b, c, rep);
    Assoc(a, [c], b);
    Assoc(a, rep, b);
  }

  /** An address followed directly by a line break swallows the `<br>` and the next word:
      the line break is replaced before links are found, and `<br>` is not white space. */
  lemma LinkSwallowsBreak(scheme: string, host: string, next: string)
    requires scheme == "http://" || scheme == "https://"
    requires host != [] && forall k :: 0 <= k < |host| ==> !IsWhitespace(host[k])
    requires forall k :: 0 <= k < |next| ==> !IsWhitespace(next[k])
    ensures FormatContent(scheme + host + "\n" + next) == Anchor(scheme + host + "<br>" + next)
  {
    assert '\n' !in scheme + host && '\n' !in next;
    ReplaceSeparator(scheme + host, next, '\n', "<br>");
    var rest := host + "<br>" + next;
    assert forall k :: 0 <= k < |rest| ==> !IsWhitespace(rest[k]) by {
      forall k | 0 <= k < |rest| ensures !IsWhitespace(rest[k]) {
        if k < |host| { assert rest[k] == host[k]; }
        else if k >= |host| + 4 { assert rest[k] == next[k - |host| - 4]; }
      }
    }
    WholeLink(scheme, rest);
    Regroup(scheme, host, "<br>", next);
  }

  lemma Regroup(a: string, b: string, c: string, d: string)
    ensures a + b + c + d == a + (b + c + d)
  {
  }

  /** A scheme cannot begin inside scheme-free text `a` and run on into text that starts
      with `h`: the only `h` of either scheme is its first character. */
  lemma NotAcross(a: string, rest: string, i: nat, p: string)
    requires p == "http://" || p == "https://"
    requires i < |a| && !HasAt(a, i, p)
    requires rest != [] && rest[0] == 'h'
    ensures !HasAt(a + rest, i, p)
  {
    var s := a + rest;
    if i + |p| <= |s| {
      if i + |p| <= |a| {
        assert s[i..i + |p|] == a[i..i + |p|];
      } else {
        var j := |a| - i;
        assert s[i..i + |p|][j] == s[|a|] == rest[0] == 'h';
        assert 1 <= j < |p|;
        assert p[j] != 'h';
      }
    }
  }

  /** Dropping the first character moves every occurrence one place to the left. */
  lemma HasAtTail(s: string, i: nat, p: string)
    requires s != []
    ensures HasAt(s[1..], i, p) <==> HasAt(s, i + 1, p)
  {
    if i + |p| <= |s[1..]| {
      assert s[1..][i..i + |p|] == s[i + 1..i + 1 + |p|];
    }
  }

  /** One step of the scan at a match: the anchor, then the scan of what follows. */
  lemma LinkifyAtMatch(s: string, m: nat)
    requires m == UrlMatch(s) && m > 0
    ensures Linkify(s) == Anchor(s[..m]) + Linkify(s[m..])
  {
  }

  /** One step of the scan where nothing matches: the character is kept. */
  lemma LinkifyAtOther(s: string)
    requires s != [] && UrlMatch(s) == 0
    ensures Linkify(s) == [s[0]] + Linkify(s[1..])
  {
  }

  /** Text in which no scheme begins is copied through, and scanning carries on after it. */
  lemma {:induction false} LinkifyPlainPrefix(a: string, rest: string)
    requires forall i :: 0 <= i < |a| ==> !HasAt(a + rest, i, "http://") && !HasAt(a + rest, i, "https://")
    decreases |a|
    ensures Linkify(a + rest) == a + Linkify(rest)
  {
    if a != [] {
      var s := a + rest;
      assert s[1..] == a[1..] + rest;
      assert UrlMatch(s) == 0 by {
        assert !HasAt(s, 0, "http://") && !HasAt(s, 0, "https://");
      }
      LinkifyAtOther(s);
      forall i | 0 <= i < |a[1..]|
        ensures !HasAt(a[1..] + rest, i, "http://") && !HasAt(a[1..] + rest, i, "https://")
      {
        HasAtTail(s, i, "http://");
        HasAtTail(s, i, "https://");
      }
      LinkifyPlainPrefix(a[1..], rest);
      var l := Linkify(rest);
      assert [a[0]] + a[1..] == a;
      assert [a[0]] + (a[1..] + l) == ([a[0]] + a[1..]) + l;
    } else {
      assert a + rest == rest;
    }
  }

  /** The run of non-space characters at the start of `host + t` is `host` when `t` starts
      with white space. */
  lemma RunStopsAtSpace(host: string, t: string)
    requires forall k :: 0 <= k < |host| ==> !IsWhitespace(host[k])
    requires t != [] && IsWhitespace(t[0])
    ensures NonSpaceRun(host + t) == |host|
  {
    var n := NonSpaceRun(host + t);
    assert (host + t)[|host|] == t[0];
  }

  /** Text that starts with white space has no match at its start. */
  lemma NoMatchAtSpace(t: string)
    requires t != [] && IsWhitespace(t[0])
    ensures UrlMatch(t) == 0
  {
    assert t[0] != 'h';
    assert |t| >= 7 ==> t[0..7][0] == t[0];
    assert |t| >= 8 ==> t[0..8][0] == t[0];
  }

  /** The match at the start of an address ended by white space is the address. */
  lemma MatchStopsAtSpace(scheme: string, host: string, t: string)
    requires scheme == "http://" || scheme == "https://"
    requires host != [] && forall k :: 0 <= k < |host| ==> !IsWhitespace(host[k])
    requires t != [] && IsWhitespace(t[0])
    ensures UrlMatch(scheme + host + t) == |scheme| + |host|
  {
    SchemeMatches(scheme, host + t);
    RunStopsAtSpace(host, t);
    assert scheme + host + t == scheme + (host + t);
  }

  /** An address ended by white space becomes one anchor, and scanning resumes at the white space. */
  lemma LinkThenSpace(scheme: string, host: string, w: char, b: string)
    requires scheme == "http://" || scheme == "https://"
    requires host != [] && forall k :: 0 <= k < |host| ==> !IsWhitespace(host[k])
    requires IsWhitespace(w)
    ensures Linkify(scheme + host + [w] + b) == Anchor(scheme + host) + [w] + Linkify(b)
  {
    var u := scheme + host;
    var t := [w] + b;
    Assoc(u, [w], b);
    assert Linkify(u + t) == Anchor(u) + Linkify(t) by {
      MatchStopsAtSpace(scheme, host, t);
      LinkifyAtMatch(u + t, |u|);
      assert (u + t)[..|u|] == u && (u + t)[|u|..] == t;
    }
    assert Linkify(t) == [w] + Linkify(b) by {
      NoMatchAtSpace(t);
      LinkifyAtOther(t);
      assert t[1..] == b;
    }
    Assoc(Anchor(u), [w], Linkify(b));
  }

  /** `Linkify` turns each address into an anchor in the middle of other text: scheme-free
      text before it is kept, the address up to the next white space becomes one anchor, and
      the rest is linkified in turn. */
  lemma LinkInText(a: string, scheme: string, host: string, w: char, b: string)
    requires NoScheme(a)
    requires scheme == "http://" || scheme == "https://"
    requires host != [] && forall k :: 0 <= k < |host| ==> !IsWhitespace(host[k])
    requires IsWhitespace(w)
    ensures Linkify(a + scheme + host + [w] + b) == Linkify(a) + Anchor(scheme + host) + [w] + Linkify(b)
  {
    var u := scheme + host;
    var rest := u + [w] + b;
    assert rest[0] == 'h';
    forall i | 0 <= i < |a| ensures !HasAt(a + rest, i, "http://") && !HasAt(a + rest, i, "https://") {
      NotAcross(a, rest, i, "http://");
      NotAcross(a, rest, i, "https://");
    }
    LinkifyPlainPrefix(a, rest);
    LinkifyNoScheme(a);
    LinkThenSpace(scheme, host, w, b);
    // Regroup both sides.
    Assoc(a, u + [w], b);
    Assoc(a, u, [w]);
    Assoc(a, scheme, host);
    var l := Linkify(b);
    Assoc(a, Anchor(u) + [w], l);
    Assoc(a, Anchor(u), [w]);
  }

  lemma Assoc(a: string, b: string, c: string)
    ensures a + (b + c) == a + b + c
  {
  }

  /** The same for `formatContent`, when the white space ending the address is not a line
      break (a line break becomes `<br>` first, see `LinkSwallowsBreak`). */
  lemma FormatLinkInText(a: string, scheme: string, host: string, w: char, b: string)
    requires NoScheme(a) && '\n' !in a
    requires scheme == "http://" || scheme == "https://"
    requires host != [] && forall k :: 0 <= k < |host| ==> !IsWhitespace(host[k])
    requires IsWhitespace(w) && w != '\n'
    ensures FormatContent(a + scheme + host + [w] + b)
            == FormatContent(a) + Anchor(scheme + host) + [w] + FormatContent(b)
  {
    var head := a + scheme + host + [w];
    assert '\n' !in host by {
      assert IsWhitespace('\n');
    }
    assert '\n' !in head;
    ReplaceCharAppend(head, b, '\n', "<br>");
    var b' := ReplaceChar(b, '\n', "<br>");
    LinkInText(a, scheme, host, w, b');
    assert head + b' == a + scheme + host + [w] + b';
  }

  // ---------------------------------------------------------------------------------------
  // randomString

  const Lower: string := "abcdefghijklmnopqrstuvwxyz"
  const Upper: string := "ABCDEFGHIJKLMNOPQRSTUVWXYZ"
  const Digits: string := "0123456789"
  const Symbols: string := "~`!@#$%^&*()_+-={}[]:\";'<>?,./|\\"

  /** The alphabet selected by the flags in `chars`: `a`, `A`, `#` and `!`, always in that order. */
  function Mask(chars: string): (m: string)
    ensures |m| == (if 'a' in chars then 26 else 0) + (if 'A' in chars then 26 else 0)
                 + (if '#' in chars then 10 else 0) + (if '!' in chars then 32 else 0)
    ensures forall c :: c in m <==> || ('a' in chars && c in Lower) || ('A' in chars && c in Upper)
                                    || ('#' in chars && c in Digits) || ('!' in chars && c in Symbols)
  {
    (if 'a' in chars then Lower else "") + (if 'A' in chars then Upper else "")
    + (if '#' in chars then Digits else "") + (if '!' in chars then Symbols else "")
  }

  /** `Math.round(x * (m - 1))` for a draw `x` in [0, 1): the position picked in a mask of
      length `m` (JavaScript rounds halves upwards). */
  function Pick(x: real, m: nat): (k: int)
    requires 0.0 <= x < 1.0 && m >= 1
    ensures 0 <= k < m
  {
    var y := x * (m - 1) as real;
    assert y <= (m - 1) as real by {
      var room, width := 1.0 - x, (m - 1) as real;
      assert room >= 0.0 && width >= 0.0;
      assert room * width >= 0.0;
      assert width - y == room * width;
    }
    assert y >= 0.0;
    assert (y + 0.5).Floor as real <= y + 0.5;
    (y + 0.5).Floor
  }

  function Repeat(s: string, n: nat): string {
    if n == 0 then [] else s + Repeat(s, n - 1)
  }

  /** `randomString(length, chars)` with `draw(k)` the `k`-th value of `Math.random`. An
      empty mask gives `undefined` for every position, which the concatenation spells out. */
  method RandomString(length: int, chars: string, draw: nat -> real) returns (r: string)
    requires forall k :: 0.0 <= draw(k) < 1.0
    ensures Mask(chars) != [] ==> |r| == (if length > 0 then length else 0)
    ensures Mask(chars) != [] ==> forall i :: 0 <= i < |r| ==> r[i] in Mask(chars)
    ensures Mask(chars) != [] ==> forall i :: 0 <= i < |r| ==> r[i] == Mask(chars)[Pick(draw(i), |Mask(chars)|)]
    ensures Mask(chars) == [] ==> r == Repeat("undefined", if length > 0 then length else 0)
  {
    var mask := Mask(chars);
    r := [];
    var i := length;
    var done: nat := 0;
    while i > 0
      invariant done == (if length > 0 then length - i else 0) && (length > 0 ==> i >= 0)
      invariant mask != [] ==> |r| == done
      invariant mask != [] ==> forall j :: 0 <= j < |r| ==> r[j] == mask[Pick(draw(j), |mask|)]
      invariant mask == [] ==> r == Repeat("undefined", done)
    {
      if mask != [] {
        r := r + [mask[Pick(draw(done), |mask|)]];
      } else {
        RepeatAppend("undefined", done);
        r := r + "undefined";
      }
      i := i - 1;
      done := done + 1;
    }
  }

  lemma {:induction false} RepeatAppend(s: string, n: nat)
    ensures Repeat(s, n) + s == Repeat(s, n + 1)
  {
    if n > 0 {
      RepeatAppend(s, n - 1);
      assert Repeat(s, n) + s == s + (Repeat(s, n - 1) + s);
    }
  }

  // ---------------------------------------------------------------------------------------
  // nameToUsername

  /** `Math.floor(x * 90) + 10` for a draw `x` in [0, 1): a two-digit number. */
  function Suffix(x: real): (n: nat)
    requires 0.0 <= x < 1.0
    ensures 10 <= n <= 99
  {
    (x * 90.0).Floor + 10
  }

  /** `nameToUsername(name)`: lower-cased, spaces turned into `_`, then `_` and the number. */
  function NameToUsername(name: string, x: real): (u: string)
    requires 0.0 <= x < 1.0
    ensures |u| == |name| + 3
    ensures ' ' !in u
    ensures forall i :: 0 <= i < |name| ==> u[i] == if name[i] == ' ' then '_' else ToLowerAscii(name[i])
    ensures u[|name|] == '_' && u[|name| + 1..] == NatDigits(Suffix(x))
  {
    var lowered := ReplaceChar(LowerAscii(name), ' ', "_");
    ReplaceCharPointwise(LowerAscii(name), ' ', '_');
    lowered + "_" + NatDigits(Suffix(x))
  }

  lemma {:induction false} ReplaceCharPointwise(s: string, c: char, d: char)
    ensures |ReplaceChar(s, c, [d])| == |s|
    ensures forall i :: 0 <= i < |s| ==> ReplaceChar(s, c, [d])[i] == if s[i] == c then d else s[i]
  {
    if s != [] {
      ReplaceCharPointwise(s[1..], c, d);
    }
  }

  /** The user schema wants usernames at least 5 long, counted in UTF-16 code units as
      JavaScript counts them: a derived username meets that exactly when the name is at least
      2 long. */
  lemma UsernameLength(name: string, x: real)
    requires 0.0 <= x < 1.0
    ensures Utf16Length(NameToUsername(name, x)) >= 5 <==> Utf16Length(name) >= 2
  {
    var u := NameToUsername(name, x);
    var n := |name|;
    assert forall i :: 0 <= i < n ==> Utf16Width(name[i]) == Utf16Width(u[..n][i]);
    Utf16LengthPointwise(name, u[..n]);
    assert u == u[..n] + u[n..];
    Utf16LengthAppend(u[..n], u[n..]);
    assert forall i :: 0 <= i < |u[n..]| ==> u[n..][i] as int <= 0xFFFF;
    Utf16LengthBmp(u[n..]);
  }
}
