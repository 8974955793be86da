/** The text of an owner's chat command, as src/main.py reads it: the body
    is stripped of surrounding whitespace, checked for the `!ban-sync link `
    and `!ban-sync unlink` prefixes, and a link command is split by the
    pattern `!ban-sync link #(.*):(.*)` (src/main.py:19, 37-42, 53). */
module Commands {
  import opened Lists

  /** Python's `str.isspace()` for one character: the characters `strip()`
      removes when given no argument. */
  predicate IsSpace(ch: char) {
    ('\t' <= ch <= '\r') || ('\U{1C}' <= ch <= '\U{1F}') || ch == ' ' ||
    ch == '\U{85}' || ch == '\U{A0}' || ch == '\U{1680}' ||
    ('\U{2000}' <= ch <= '\U{200A}') || ch == '\U{2028}' || ch == '\U{2029}' ||
    ch == '\U{202F}' || ch == '\U{205F}' || ch == '\U{3000}'
  }

  /** Drops leading whitespace. */
  function StripLeft(s: string): (r: string)
    ensures |r| <= |s| && r == s[|s| - |r|..]
    ensures forall k :: 0 <= k < |s| - |r| ==> IsSpace(s[k])
    ensures r != [] ==> !IsSpace(r[0])
  {
    if s != [] && IsSpace(s[0]) then StripLeft(s[1..]) else s
  }

  /** Drops trailing whitespace. */
  function StripRight(s: string): (r: string)
    ensures |r| <= |s| && r == s[..|r|]
    ensures forall k :: |r| <= k < |s| ==> IsSpace(s[k])
    ensures r != [] ==> !IsSpace(r[|r| - 1])
  {
    if s != [] && IsSpace(s[|s| - 1]) then StripRight(s[..|s| - 1]) else s
  }

  /** `str.strip()`: the result is the part of `s` from `Leading(s)` on,
      with trailing whitespace cut off; everything dropped on either side is
      whitespace, and the result neither starts nor ends with whitespace. */
  function Strip(s: string): (r: string)
    ensures Leading(s) + |r| <= |s| && r == s[Leading(s)..Leading(s) + |r|]
    ensures forall k :: 0 <= k < Leading(s) ==> IsSpace(s[k])
    ensures forall k :: Leading(s) + |r| <= k < |s| ==> IsSpace(s[k])
    ensures r != [] ==> !IsSpace(r[0]) && !IsSpace(r[|r| - 1])
  {
    var t := StripLeft(s);
    var r := StripRight(t);
    SliceOfSuffix(s, t, r);
    r
  }

  /** The number of leading whitespace characters. */
  function Leading(s: string): nat {
    |s| - |StripLeft(s)|
  }

  /** A prefix `r` of a suffix `t` of `s` is a slice of `s`, and whatever
      `r` leaves of `t` is what it leaves of `s`. */
  lemma SliceOfSuffix(s: string, t: string, r: string)
    requires |t| <= |s| && t == s[|s| - |t|..]
    requires |r| <= |t| && r == t[..|r|]
    requires forall k :: |r| <= k < |t| ==> IsSpace(t[k])
    ensures |s| - |t| + |r| <= |s| && r == s[|s| - |t|..|s| - |t| + |r|]
    ensures forall k :: |s| - |t| + |r| <= k < |s| ==> IsSpace(s[k])
    ensures r != [] ==> r[0] == t[0]
  {
    var i := |s| - |t|;
    forall k | i + |r| <= k < |s| ensures IsSpace(s[k]) {
      assert s[k] == t[k - i];
    }
  }

  /** A body that neither starts nor ends with whitespace is left as it is. */
  lemma StripTrimmed(s: string)
    requires s != [] && !IsSpace(s[0]) && !IsSpace(s[|s| - 1])
    ensures Strip(s) == s
  {
  }

  /** Stripping twice is stripping once. */
  lemma StripIdempotent(s: string)
    ensures Strip(Strip(s)) == Strip(s)
  {
    if Strip(s) != [] {
      StripTrimmed(Strip(s));
    }
  }

  /** `str.startswith(p)`. */
  predicate StartsWith(s: string, p: string) {
    |p| <= |s| && s[..|p|] == p
  }

  /** `s` starts with `p` exactly when it is `p` followed by something. */
  lemma StartsWithConcat(s: string, p: string)
    ensures StartsWith(p + s, p)
    ensures StartsWith(s, p) ==> s == p + s[|p|..]
  {
    assert (p + s)[..|p|] == p;
  }

  /** The text up to the first newline: what `.*` can reach, since `.` does
      not match a newline. */
  function TakeLine(s: string): (r: string)
    ensures |r| <= |s| && r == s[..|r|]
    ensures '\n' !in r
    ensures |r| < |s| ==> s[|r|] == '\n'
  {
    if s == [] || s[0] == '\n' then []
    else
      var rest := TakeLine(s[1..]);
      assert [s[0]] + rest == s[..1 + |rest|];
      [s[0]] + rest
  }

  /** Position of the last occurrence of `x`. */
  function LastIndexOf(s: string, x: char): (r: Option<nat>)
    ensures r.Some? ==> r.value < |s| && s[r.value] == x && x !in s[r.value + 1..]
    ensures r.None? <==> x !in s
  {
    if s == [] then None
    else if s[|s| - 1] == x then Some(|s| - 1)
    else
      var r := LastIndexOf(s[..|s| - 1], x);
      assert s == s[..|s| - 1] + [s[|s| - 1]];
      match r
      case None => None
      case Some(k) =>
        assert s[k + 1..] == s[..|s| - 1][k + 1..] + [s[|s| - 1]];
        r
  }

  const LinkPrefix := "!ban-sync link "
  const LinkPattern := "!ban-sync link #"
  const UnlinkPrefix := "!ban-sync unlink"

  /** `re.match(LINK_COMMAND_REGEX, content)` and its two groups. The first
      `(.*)` is greedy, so on the first line after `#` it takes everything
      up to the line's last `:`; the second group takes the rest of that
      line. There is no match when that line has no `:`. */
  function MatchLink(content: string): (m: Option<(string, string)>)
    ensures m.Some? <==>
      StartsWith(content, LinkPattern) && ':' in TakeLine(content[|LinkPattern|..])
    ensures m.Some? ==>
      TakeLine(content[|LinkPattern|..]) == m.value.0 + ":" + m.value.1 && ':' !in m.value.1
  {
    if !StartsWith(content, LinkPattern) then None
    else
      var line := TakeLine(content[|LinkPattern|..]);
      match LastIndexOf(line, ':')
      case None => None
      case Some(k) =>
        SplitAround(line, k);
        Some((line[..k], line[k + 1..]))
  }

  /** A text is what comes before a `:` at position `k`, that `:`, and what
      comes after. */
  lemma SplitAround(line: string, k: nat)
    requires k < |line| && line[k] == ':'
    ensures line == line[..k] + ":" + line[k + 1..]
  {
    assert line == line[..k] + line[k..];
    assert line[k..] == [line[k]] + line[k + 1..];
  }

  /** Conversely, every `#name:server` line with no `:` in `server` is
      matched and split back into exactly `name` and `server`. */
  lemma MatchLinkSplitsAtLastColon(name: string, server: string, rest: string)
    requires ':' !in server && '\n' !in name && '\n' !in server
    requires rest == [] || rest[0] == '\n'
    ensures MatchLink(LinkPattern + name + ":" + server + rest) == Some((name, server))
  {
    var content := LinkPattern + name + ":" + server + rest;
    var line := name + ":" + server;
    assert content[|LinkPattern|..] == line + rest;
    assert StartsWith(content, LinkPattern) by {
      assert content[..|LinkPattern|] == LinkPattern;
    }
    TakeLineStops(line, rest);
    assert line[|name|] == ':';
    var m := MatchLink(content);
    SplitAtLastColonUnique(m.value.0, m.value.1, name, server);
  }

  /** A text splits in only one way into `name:server` with no `:` in
      `server`. */
  lemma SplitAtLastColonUnique(n1: string, s1: string, n2: string, s2: string)
    requires n1 + ":" + s1 == n2 + ":" + s2
    requires ':' !in s1 && ':' !in s2
    ensures n1 == n2 && s1 == s2
  {
    var t := n1 + ":" + s1;
    assert t[|n1|] == ':' && t[|n2|] == ':';
    assert n1 == t[..|n1|] && n2 == t[..|n2|];
    assert s1 == t[|n1| + 1..] && s2 == t[|n2| + 1..];
  }

  lemma {:induction false} TakeLineStops(line: string, rest: string)
    requires '\n' !in line
    requires rest == [] || rest[0] == '\n'
    ensures TakeLine(line + rest) == line
  {
    if line != [] {
      assert (line + rest)[1..] == line[1..] + rest;
      TakeLineStops(line[1..], rest);
      assert line == [line[0]] + line[1..];
    } else {
      assert line + rest == rest;
    }
  }

  /** What an owner's message asks for. */
  datatype Command =
    | LinkCommand(name: string, server: string)
    | MalformedLink    // starts with the link prefix but the pattern does not match
    | UnlinkCommand
    | NoCommand

  /** The branch `message_cb` takes for a message body: the link prefix is
      tested first, and a link is read only through the pattern; then the
      unlink prefix; anything else is ignored. */
  function Parse(body: string): (c: Command)
    ensures c.LinkCommand? <==> StartsWith(Strip(body), LinkPrefix) && MatchLink(Strip(body)).Some?
    ensures c.LinkCommand? ==> MatchLink(Strip(body)) == Some((c.name, c.server))
    ensures c.MalformedLink? <==> StartsWith(Strip(body), LinkPrefix) && MatchLink(Strip(body)).None?
    ensures c.UnlinkCommand? <==>
      !StartsWith(Strip(body), LinkPrefix) && StartsWith(Strip(body), UnlinkPrefix)
    ensures c.NoCommand? <==>
      !StartsWith(Strip(body), LinkPrefix) && !StartsWith(Strip(body), UnlinkPrefix)
  {
    var content := Strip(body);
    if StartsWith(content, LinkPrefix) then
      match MatchLink(content)
      case None => MalformedLink
      case Some((n, s)) => LinkCommand(n, s)
    else if StartsWith(content, UnlinkPrefix) then UnlinkCommand
    else NoCommand
  }

  /** A body whose stripped form is the link pattern, `name:server` and
      possibly further lines parses as a link to exactly `name` and
      `server`. */
  lemma ParseLink(body: string, name: string, server: string, rest: string)
    requires Strip(body) == LinkPattern + name + ":" + server + rest
    requires ':' !in server && '\n' !in name && '\n' !in server
    requires rest == [] || rest[0] == '\n'
    ensures Parse(body) == LinkCommand(name, server)
  {
    var content := Strip(body);
    assert StartsWith(content, LinkPrefix) by {
      assert content[..|LinkPrefix|] == LinkPattern[..|LinkPrefix|];
    }
    MatchLinkSplitsAtLastColon(name, server, rest);
  }

  /** A body whose stripped form starts with the unlink prefix parses as an
      unlink, whatever follows the prefix. */
  lemma ParseUnlink(body: string)
    requires StartsWith(Strip(body), UnlinkPrefix)
    ensures Parse(body) == UnlinkCommand
  {
    var content := Strip(body);
    assert !StartsWith(content, LinkPrefix) by {
      assert content[10] == content[..|UnlinkPrefix|][10] == 'u';
      assert LinkPrefix[10] == 'l';
    }
  }

  /** The alias the link command asks the server to resolve. */
  function Alias(name: string, server: string): string {
    "#" + name + ":" + server
  }
}
