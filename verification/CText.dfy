/** The C string helpers the configuration code is built from: `isspace`,
    `strcasecmp`, `strchr`, `rss_trim` and `rss_strlcpy`.

    A NUL-terminated C string is a Dafny `string` of its bytes before the NUL. */
module CText {

  predicate IsBlank(c: char) {
    c == ' ' || c == '\t'
  }

  // isspace() in the C locale
  predicate IsSpace(c: char) {
    c == ' ' || c == '\t' || c == '\n' || c == '\r' || c == '\U{0B}' || c == '\U{0C}'
  }

  predicate AllSpace(s: string) {
    forall i | 0 <= i < |s| :: IsSpace(s[i])
  }

  // Neither end is white space
  predicate Trimmed(s: string) {
    s != "" ==> !IsSpace(s[0]) && !IsSpace(s[|s| - 1])
  }

  function ToLower(c: char): char {
    if 'A' <= c <= 'Z' then ((c as int) + 32) as char else c
  }

  function Lower(s: string): (r: string)
    ensures |r| == |s|
  {
    seq(|s|, i requires 0 <= i < |s| => ToLower(s[i]))
  }

  // strcasecmp(a, b) == 0
  predicate EqNoCase(a: string, b: string) {
    Lower(a) == Lower(b)
  }

  // What rss_strlcpy leaves in a buffer of n + 1 bytes
  function Clip(s: string, n: nat): (r: string)
    ensures |r| <= n && r <= s
    ensures |s| <= n ==> r == s
  {
    if |s| <= n then s else s[..n]
  }

  // First index holding c, or |s| (strchr)
  function IndexOf(s: string, c: char): (r: nat)
    ensures r <= |s|
    ensures r < |s| ==> s[r] == c
  {
    IndexFrom(s, c, 0)
  }

  function IndexFrom(s: string, c: char, i: nat): (r: nat)
    requires i <= |s|
    ensures i <= r <= |s|
    ensures r < |s| ==> s[r] == c
    decreases |s| - i
  {
    if i == |s| || s[i] == c then i else IndexFrom(s, c, i + 1)
  }

  // First non-space index, or |s|
  function Lead(s: string): (r: nat)
    ensures r <= |s|
    ensures r < |s| ==> !IsSpace(s[r])
  {
    LeadFrom(s, 0)
  }

  function LeadFrom(s: string, i: nat): (r: nat)
    requires i <= |s|
    ensures i <= r <= |s|
    ensures r < |s| ==> !IsSpace(s[r])
    decreases |s| - i
  {
    if i == |s| || !IsSpace(s[i]) then i else LeadFrom(s, i + 1)
  }

  // Index just past the last non-space character, or 0
  function Past(s: string): (r: nat)
    ensures r <= |s|
    ensures r > 0 ==> !IsSpace(s[r - 1])
  {
    PastFrom(s, |s|)
  }

  function PastFrom(s: string, n: nat): (r: nat)
    requires n <= |s|
    ensures r <= n
    ensures r > 0 ==> !IsSpace(s[r - 1])
  {
    if n == 0 || !IsSpace(s[n - 1]) then n else PastFrom(s, n - 1)
  }

  lemma {:induction false} PastAfter(s: string, n: nat, i: nat)
    requires n <= |s|
    ensures i < n && !IsSpace(s[i]) ==> i < PastFrom(s, n)
  {
    if n > 0 && IsSpace(s[n - 1]) {
      PastAfter(s, n - 1, i);
    }
  }

  lemma {:induction false} IndexFromMin(s: string, c: char, i: nat)
    requires i <= |s|
    ensures forall j | i <= j < IndexFrom(s, c, i) :: s[j] != c
    decreases |s| - i
  {
    if i < |s| && s[i] != c {
      IndexFromMin(s, c, i + 1);
    }
  }

  // No earlier index holds c.
  lemma IndexMin(s: string, c: char)
    ensures forall j | 0 <= j < IndexOf(s, c) :: s[j] != c
  {
    IndexFromMin(s, c, 0);
  }

  lemma IndexIs(s: string, c: char, r: nat)
    requires r <= |s|
    requires r < |s| ==> s[r] == c
    requires forall i | 0 <= i < r :: s[i] != c
    ensures IndexOf(s, c) == r
  {
    IndexMin(s, c);
  }

  lemma {:induction false} LeadFromSpaces(s: string, i: nat)
    requires i <= |s|
    ensures forall j | i <= j < LeadFrom(s, i) :: IsSpace(s[j])
    decreases |s| - i
  {
    if i < |s| && IsSpace(s[i]) {
      LeadFromSpaces(s, i + 1);
    }
  }

  lemma LeadSpaces(s: string)
    ensures AllSpace(s[..Lead(s)])
    ensures forall j | 0 <= j < Lead(s) :: IsSpace(s[j])
  {
    LeadFromSpaces(s, 0);
  }

  lemma {:induction false} PastFromSpaces(s: string, n: nat)
    requires n <= |s|
    ensures forall j | PastFrom(s, n) <= j < n :: IsSpace(s[j])
  {
    if n > 0 && IsSpace(s[n - 1]) {
      PastFromSpaces(s, n - 1);
    }
  }

  lemma PastSpaces(s: string)
    ensures AllSpace(s[Past(s)..])
    ensures forall j | Past(s) <= j < |s| :: IsSpace(s[j])
  {
    PastFromSpaces(s, |s|);
  }

  function Trim(s: string): (r: string)
    ensures Trimmed(r)
    ensures |r| <= |s|
  {
    if Lead(s) < Past(s) then s[Lead(s)..Past(s)] else ""
  }

  lemma LeadIs(s: string, r: nat)
    requires r <= |s|
    requires r < |s| ==> !IsSpace(s[r])
    requires forall i | 0 <= i < r :: IsSpace(s[i])
    ensures Lead(s) == r
  {
    LeadSpaces(s);
  }

  lemma PastIs(s: string, r: nat)
    requires r <= |s|
    requires r > 0 ==> !IsSpace(s[r - 1])
    requires forall i | r <= i < |s| :: IsSpace(s[i])
    ensures Past(s) == r
  {
    PastSpaces(s);
  }

  // Trimming removes exactly the white space around the text.
  lemma TrimFrame(ws: string, t: string, tail: string)
    requires AllSpace(ws) && AllSpace(tail) && Trimmed(t) && t != ""
    ensures Trim(ws + t + tail) == t
    ensures Lead(ws + t + tail) == |ws|
  {
    var s := ws + t + tail;
    var a, b := |ws|, |ws| + |t|;
    assert !IsSpace(s[a]) by { assert s[a] == t[0]; }
    assert !IsSpace(s[b - 1]) by { assert s[b - 1] == t[|t| - 1]; }
    LeadIs(s, a);
    forall i | b <= i < |s|
      ensures IsSpace(s[i])
    {
      assert s[i] == tail[i - b];
    }
    PastIs(s, b);
    assert s[a..b] == t;
  }

  lemma TrimSplit(s: string) returns (ws: string, tail: string)
    requires Lead(s) < |s|
    ensures s == ws + Trim(s) + tail
    ensures AllSpace(ws) && AllSpace(tail) && |ws| == Lead(s) && Trim(s) != ""
  {
    LeadSpaces(s);
    PastSpaces(s);
    PastAfter(s, |s|, Lead(s));
    var a, b := Lead(s), Past(s);
    ws, tail := s[..a], s[b..];
    assert s == s[..a] + s[a..b] + s[b..];
  }

  lemma Assoc3(a: string, b: string, c: string)
    ensures a + b + c == a + (b + c)
  {
  }

  // Regrouping of a line in pieces
  lemma Regroup(ws: string, key: string, sep: string, v: string, d: string, tail: string)
    ensures ws + key + sep + v + (d + tail) == ws + (key + sep + v + d) + tail
  {
    var kv := key + sep + v;
    assert ws + key + sep + v == ws + kv by {
      Assoc3(ws, key, sep);
      Assoc3(ws, key + sep, v);
    }
    Assoc3(ws + kv, d, tail);
    Assoc3(ws, kv, d);
  }

  lemma TrimOfTrimmed(s: string)
    requires Trimmed(s)
    ensures Trim(s) == s
  {
    if s != "" {
      TrimFrame("", s, "");
      assert "" + s + "" == s;
    }
  }

  function Repeat(c: char, n: nat): (r: string)
    ensures |r| == n && forall i | 0 <= i < n :: r[i] == c
  {
    seq(n, _ => c)
  }

  // ---- the loops behind the helpers

  /** rss_trim: two pointer loops over the buffer. `start` is how far the
      returned pointer lies past the argument. */
  method RssTrim(s: string) returns (start: nat, t: string)
    ensures t == Trim(s) && start == Lead(s)
  {
    start := 0;
    while start < |s| && IsSpace(s[start])
      invariant 0 <= start <= |s|
      invariant forall i | 0 <= i < start :: IsSpace(s[i])
    {
      start := start + 1;
    }
    LeadIs(s, start);
    if start == |s| {
      t := "";
      return;
    }
    var end := |s| - 1;
    while end > start && IsSpace(s[end])
      invariant start <= end < |s|
      invariant forall i | end < i < |s| :: IsSpace(s[i])
    {
      end := end - 1;
    }
    PastIs(s, end + 1);
    t := s[start..end + 1];
  }

  method StrChr(s: string, c: char) returns (r: nat)
    ensures r == IndexOf(s, c)
  {
    r := 0;
    while r < |s| && s[r] != c
      invariant 0 <= r <= |s|
      invariant forall i | 0 <= i < r :: s[i] != c
    {
      r := r + 1;
    }
    IndexIs(s, c, r);
  }

  /** rss_strlcpy into a buffer of `size` bytes; the second result is the full
      source length, which tells the caller about truncation. */
  method RssStrlcpy(src: string, size: nat) returns (dst: string, srcLen: nat)
    requires size > 0
    ensures dst == Clip(src, size - 1) && srcLen == |src|
  {
    var i := 0;
    dst := "";
    while i < size - 1 && i < |src|
      invariant 0 <= i <= size - 1 && i <= |src|
      invariant dst == src[..i]
    {
      dst := dst + [src[i]];
      i := i + 1;
    }
    srcLen := i;
    while srcLen < |src|
      invariant i <= srcLen <= |src|
    {
      srcLen := srcLen + 1;
    }
  }
}
