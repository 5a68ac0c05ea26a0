/** Allowed-origin normalisation and its storage column (src/site/types.rs, src/storage/memory.rs). */
module Origins {
  import opened Common

  const MAX_ALLOWED_ORIGINS: nat := 32


  /** Unicode White_Space, which is what Rust's `char::is_whitespace` tests. */
  predicate IsWhitespace(c: char) {
    '\U{0009}' <= c <= '\U{000D}' || c == ' ' || c == '\U{0085}' || c == '\U{00A0}' || c == '\U{1680}' ||
    '\U{2000}' <= c <= '\U{200A}' || c == '\U{2028}' || c == '\U{2029}' || c == '\U{202F}' ||
    c == '\U{205F}' || c == '\U{3000}'
  }

  /** A token: nonempty and free of whitespace. */
  predicate IsToken(s: string) {
    s != "" && forall i :: 0 <= i < |s| ==> !IsWhitespace(s[i])
  }

  ghost predicate AllTokens(list: seq<string>) {
    forall i :: 0 <= i < |list| ==> IsToken(list[i])
  }

  // ---- The space-joined column ---------------------------------------------

  function Join(list: seq<string>): string {
    if list == [] then ""
    else if |list| == 1 then list[0]
    else list[0] + " " + Join(list[1..])
  }

  function Flush(pending: string): seq<string> {
    if pending == "" then [] else [pending]
  }

  function Tokens(s: string, pending: string): seq<string> {
    if s == "" then Flush(pending)
    else if IsWhitespace(s[0]) then Flush(pending) + Tokens(s[1..], "")
    else Tokens(s[1..], pending + [s[0]])
  }

  function SplitWhitespace(s: string): seq<string> {
    Tokens(s, "")
  }

  lemma {:induction false} TokenIsSwallowed(t: string, rest: string, pending: string)
    requires forall i :: 0 <= i < |t| ==> !IsWhitespace(t[i])
    ensures Tokens(t + rest, pending) == Tokens(rest, pending + t)
  {
    if t == "" {
      assert t + rest == rest && pending + t == pending;
    } else {
      assert (t + rest)[1..] == t[1..] + rest;
      assert pending + [t[0]] + t[1..] == pending + t;
      TokenIsSwallowed(t[1..], rest, pending + [t[0]]);
    }
  }

  /** A token with nothing behind it is the whole result. */
  lemma LastToken(t: string)
    requires IsToken(t)
    ensures SplitWhitespace(t) == [t]
  {
    TokenIsSwallowed(t, "", "");
    assert t + "" == t && "" + t == t;
    assert Tokens("", t) == Flush(t) == [t];
  }

  /** A token with a space behind it is the first result. */
  lemma FirstToken(t: string, rest: string)
    requires IsToken(t)
    ensures SplitWhitespace(t + (" " + rest)) == [t] + SplitWhitespace(rest)
  {
    var spaced := " " + rest;
    TokenIsSwallowed(t, spaced, "");
    assert "" + t == t;
    assert spaced[0] == ' ' && spaced[1..] == rest;
    assert Tokens(spaced, t) == Flush(t) + Tokens(rest, "");
  }

  lemma {:induction false} SplitInvertsJoin(list: seq<string>)
    requires AllTokens(list)
    ensures SplitWhitespace(Join(list)) == list
  {
    if |list| == 1 {
      LastToken(list[0]);
      assert Join(list) == list[0];
    } else if list != [] {
      FirstToken(list[0], Join(list[1..]));
      assert Join(list) == list[0] + (" " + Join(list[1..])) by {
        assert list[0] + " " + Join(list[1..]) == list[0] + (" " + Join(list[1..]));
      }
      SplitInvertsJoin(list[1..]);
      assert list == [list[0]] + list[1..];
    }
  }

  lemma {:induction false} SplitYieldsTokens(s: string, pending: string)
    requires forall i :: 0 <= i < |pending| ==> !IsWhitespace(pending[i])
    ensures AllTokens(Tokens(s, pending))
  {
    if s != "" {
      if IsWhitespace(s[0]) {
        SplitYieldsTokens(s[1..], "");
      } else {
        SplitYieldsTokens(s[1..], pending + [s[0]]);
      }
    }
  }

  /** The column reloads losslessly exactly for lists of whitespace-free, nonempty entries. */
  lemma ColumnIsLossless(list: seq<string>)
    ensures SplitWhitespace(Join(list)) == list <==> AllTokens(list)
  {
    if AllTokens(list) {
      SplitInvertsJoin(list);
    }
    SplitYieldsTokens(Join(list), "");
  }

  // ---- Normalisation -------------------------------------------------------

  function TrimStart(s: string): string {
    if s != "" && IsWhitespace(s[0]) then TrimStart(s[1..]) else s
  }

  function TrimEnd(s: string): string {
    if s != "" && IsWhitespace(s[|s| - 1]) then TrimEnd(s[..|s| - 1]) else s
  }

  function Trim(s: string): string {
    TrimEnd(TrimStart(s))
  }

  function LowerChar(c: char): char {
    if 'A' <= c <= 'Z' then (c as int - 'A' as int + 'a' as int) as char else c
  }

  function Lower(s: string): (r: string)
    ensures |r| == |s|
  {
    seq(|s|, i requires 0 <= i < |s| => LowerChar(s[i]))
  }

  /** What follows the scheme, if the scheme is one we serve. */
  function Authority(s: string): Option<string> {
    if "https://" <= s then Some(s[8..])
    else if "http://" <= s then Some(s[7..])
    else None
  }

  function NormalizeOrigin(raw: string): Result<string> {
    var trimmed := Trim(raw);
    if !IsToken(trimmed) then Err(raw)
    else
      var lower := Lower(trimmed);
      match Authority(lower)
      case None => Err(raw)
      case Some(rest) =>
        if rest == "" || '/' in rest || '?' in rest || '#' in rest then Err(raw) else Ok(lower)
  }

  lemma {:induction false} TrimKeepsTokens(s: string)
    requires IsToken(s)
    ensures Trim(s) == s
  {
  }

  /** What is stored is a lowercase token, and storing it again changes nothing. */
  lemma NormalFormIsStable(raw: string)
    requires NormalizeOrigin(raw).Ok?
    ensures var o := NormalizeOrigin(raw).value; IsToken(o) && Lower(o) == o && NormalizeOrigin(o) == Ok(o)
  {
    var trimmed := Trim(raw);
    var o := Lower(trimmed);
    forall i | 0 <= i < |o| ensures !IsWhitespace(o[i]) && LowerChar(o[i]) == o[i] {
      assert !IsWhitespace(trimmed[i]);
    }
    assert Lower(o) == o;
    TrimKeepsTokens(o);
  }

  ghost predicate Blank(s: string) {
    forall i :: 0 <= i < |s| ==> IsWhitespace(s[i])
  }

  /** Nonempty, with no path, query or fragment. */
  ghost predicate CleanAuthority(rest: string) {
    rest != "" && '/' !in rest && '?' !in rest && '#' !in rest
  }

  /** The origin in lower case is this one: nothing around it but whitespace, none inside, and only a host behind the scheme. */
  ghost predicate Presents(left: string, core: string, right: string, o: string) {
    && Blank(left) && Blank(right) && IsToken(core)
    && |o| == |core|
    && (forall i :: 0 <= i < |core| ==>
          o[i] == if 'A' <= core[i] <= 'Z' then (core[i] as int + 32) as char else core[i])
    && (("http://" <= o && CleanAuthority(o[7..])) || ("https://" <= o && CleanAuthority(o[8..])))
  }

  lemma {:induction false} TrimStartSplits(s: string) returns (left: string)
    ensures Blank(left) && s == left + TrimStart(s)
    ensures TrimStart(s) != "" ==> !IsWhitespace(TrimStart(s)[0])
  {
    left := "";
    if s != "" && IsWhitespace(s[0]) {
      var rest := TrimStartSplits(s[1..]);
      left := [s[0]] + rest;
      assert s == [s[0]] + s[1..];
    }
  }

  lemma {:induction false} TrimEndSplits(s: string) returns (right: string)
    ensures Blank(right) && s == TrimEnd(s) + right
  {
    right := "";
    if s != "" && IsWhitespace(s[|s| - 1]) {
      var rest := TrimEndSplits(s[..|s| - 1]);
      right := rest + [s[|s| - 1]];
      assert s == s[..|s| - 1] + [s[|s| - 1]];
    }
  }

  lemma {:induction false} TrimStartDrops(left: string, core: string)
    requires Blank(left) && core != "" && !IsWhitespace(core[0])
    ensures TrimStart(left + core) == core
  {
    if left == "" {
      assert left + core == core;
    } else {
      assert (left + core)[1..] == left[1..] + core;
      TrimStartDrops(left[1..], core);
    }
  }

  lemma {:induction false} TrimEndDrops(core: string, right: string)
    requires Blank(right) && core != "" && !IsWhitespace(core[|core| - 1])
    ensures TrimEnd(core + right) == core
  {
    if right == "" {
      assert core + right == core;
    } else {
      assert (core + right)[..|core + right| - 1] == core + right[..|right| - 1];
      TrimEndDrops(core, right[..|right| - 1]);
    }
  }

  /** Trimming a padded token gives the token back. */
  lemma TrimPadded(left: string, core: string, right: string)
    requires Blank(left) && Blank(right) && IsToken(core)
    ensures Trim(left + core + right) == core
  {
    assert left + core + right == left + (core + right);
    TrimStartDrops(left, core + right);
    TrimEndDrops(core, right);
  }

  /** Lowering is the ASCII shift, character by character. */
  lemma LowerIs(core: string, o: string)
    ensures Lower(core) == o <==>
            |o| == |core| && forall i :: 0 <= i < |core| ==>
              o[i] == if 'A' <= core[i] <= 'Z' then (core[i] as int + 32) as char else core[i]
  {
  }

  /** An origin has one scheme. */
  lemma PresentedIsNormal(core: string, o: string)
    requires IsToken(core) && Lower(core) == o
    requires ("http://" <= o && CleanAuthority(o[7..])) || ("https://" <= o && CleanAuthority(o[8..]))
    ensures Authority(o).Some? && CleanAuthority(Authority(o).value)
  {
    if "https://" <= o {
      assert o[4] == "https://"[4] != "http://"[4];
      assert !("http://" <= o);
    }
  }

  lemma NormalIsPresented(raw: string, o: string)
    requires NormalizeOrigin(raw) == Ok(o)
    ensures exists left, core, right :: raw == left + core + right && Presents(left, core, right, o)
  {
    var left := TrimStartSplits(raw);
    var right := TrimEndSplits(TrimStart(raw));
    assert raw == left + Trim(raw) + right;
    AcceptedPresents(left, Trim(raw), right, o);
  }

  lemma AcceptedPresents(left: string, core: string, right: string, o: string)
    requires Blank(left) && Blank(right) && IsToken(core) && Lower(core) == o
    requires Authority(o).Some? && CleanAuthority(Authority(o).value)
    ensures Presents(left, core, right, o)
  {
    LowerIs(core, o);
  }

  lemma PresentedIsAccepted(left: string, core: string, right: string, o: string)
    requires Presents(left, core, right, o)
    ensures NormalizeOrigin(left + core + right) == Ok(o)
  {
    TrimPadded(left, core, right);
    LowerIs(core, o);
    PresentedIsNormal(core, o);
  }

  /** What is accepted, and as what: exactly the padded, token-shaped http and https origins, in lower case. */
  lemma NormalizeOriginIff(raw: string, o: string)
    ensures NormalizeOrigin(raw) == Ok(o) <==>
            exists left, core, right :: raw == left + core + right && Presents(left, core, right, o)
    ensures NormalizeOrigin(raw).Err? ==> NormalizeOrigin(raw) == Err(raw)
  {
    if NormalizeOrigin(raw) == Ok(o) {
      NormalIsPresented(raw, o);
    } else if left, core, right :| raw == left + core + right && Presents(left, core, right, o) {
      PresentedIsAccepted(left, core, right, o);
    }
  }

  /** The provisioning loop over a whole submitted list. */
  method NormalizeOrigins(raw: seq<string>) returns (r: Result<seq<string>>)
    ensures r.Ok? <==> |raw| <= MAX_ALLOWED_ORIGINS && forall i :: 0 <= i < |raw| ==> NormalizeOrigin(raw[i]).Ok?
    ensures r.Ok? ==> |r.value| == |raw| && forall i :: 0 <= i < |raw| ==> Ok(r.value[i]) == NormalizeOrigin(raw[i])
    ensures r.Ok? ==> SplitWhitespace(Join(r.value)) == r.value
  {
    if |raw| > MAX_ALLOWED_ORIGINS {
      return Err("too many allowed_origins (max 32)");
    }
    var out := [];
    for i := 0 to |raw|
      invariant |out| == i
      invariant forall j :: 0 <= j < i ==> Ok(out[j]) == NormalizeOrigin(raw[j])
      invariant AllTokens(out)
    {
      match NormalizeOrigin(raw[i])
      case Err(bad) => return Err("invalid origin: " + bad);
      case Ok(o) =>
        NormalFormIsStable(raw[i]);
        out := out + [o];
    }
    ColumnIsLossless(out);
    return Ok(out);
  }
}
