// Text handling of the entry form: Python's whitespace stripping, the
// required-field check and the normalisation of the employees link.

module Forms {
  import opened Common

  /** The characters Python's `str.strip()` removes (those `str.isspace()` accepts). */
  predicate IsSpace(c: char)
  {
    || ('\U{9}' <= c <= '\U{D}') || ('\U{1C}' <= c <= '\U{20}')
    || c == '\U{85}' || c == '\U{A0}' || c == '\U{1680}'
    || ('\U{2000}' <= c <= '\U{200A}') || c == '\U{2028}' || c == '\U{2029}'
    || c == '\U{202F}' || c == '\U{205F}' || c == '\U{3000}'
  }

  predicate AllSpace(s: string)
  {
    forall i :: 0 <= i < |s| ==> IsSpace(s[i])
  }

  /** No whitespace at either end. */
  predicate Trimmed(s: string)
  {
    s == [] || (!IsSpace(s[0]) && !IsSpace(s[|s| - 1]))
  }

  /** `s.lstrip()`: the longest suffix of `s` that does not start with whitespace. */
  function TrimStart(s: string): (r: string)
    ensures |r| <= |s| && r == s[|s| - |r|..]
    ensures AllSpace(s[..|s| - |r|])
    ensures r == [] || !IsSpace(r[0])
  {
    if s != [] && IsSpace(s[0]) then
      var r := TrimStart(s[1..]);
      LeadingSpaceGrows(s, r);
      r
    else s
  }

  /** A whitespace character before a whitespace prefix of the rest gives a
      whitespace prefix one longer, followed by the same suffix. */
  lemma LeadingSpaceGrows(s: string, r: string)
    requires s != [] && IsSpace(s[0]) && |r| <= |s| - 1
    requires r == s[1..][|s| - 1 - |r|..] && AllSpace(s[1..][..|s| - 1 - |r|])
    ensures r == s[|s| - |r|..] && AllSpace(s[..|s| - |r|])
  {
    var m := |s| - |r|;
    forall k | 0 <= k < m
      ensures IsSpace(s[..m][k])
    {
      if k > 0 {
        assert s[..m][k] == s[1..][..m - 1][k - 1];
      }
    }
  }

  /** `s.rstrip()`: the longest prefix of `s` that does not end with whitespace. */
  function TrimEnd(s: string): (r: string)
    ensures |r| <= |s| && r == s[..|r|]
    ensures AllSpace(s[|r|..])
    ensures r == [] || !IsSpace(r[|r| - 1])
  {
    if s != [] && IsSpace(s[|s| - 1]) then
      var r := TrimEnd(s[..|s| - 1]);
      assert s[|r|..] == s[..|s| - 1][|r|..] + [s[|s| - 1]];
      r
    else s
  }

  /** `s.strip()`. */
  function Strip(s: string): (r: string)
    ensures |r| <= |s| && Trimmed(r)
  {
    TrimEndKeepsStart(TrimStart(s));
    TrimEnd(TrimStart(s))
  }

  /** Trimming the end of a string that does not start with whitespace gives
      one that does not start with whitespace either. */
  lemma TrimEndKeepsStart(t: string)
    requires t == [] || !IsSpace(t[0])
    ensures TrimEnd(t) == [] || !IsSpace(TrimEnd(t)[0])
  {
    var r := TrimEnd(t);
    if r != [] {
      assert r[0] == t[0];
    }
  }

  /** The stripped string has no whitespace at its ends. */
  lemma StripHasTrimmedEnds(s: string)
    ensures Trimmed(Strip(s))
  {
    var t := TrimStart(s);
    var r := TrimEnd(t);
    if r != [] {
      assert r[0] == t[0];
    }
  }

  /** `r` is the slice of `s` that starts at `i`, with only whitespace
      before and after it. */
  predicate TrimmedSlice(s: string, i: int, r: string)
  {
    0 <= i && i + |r| <= |s| && s[i..i + |r|] == r && AllSpace(s[..i]) && AllSpace(s[i + |r|..])
  }

  /** Stripping removes only whitespace, and only at the two ends: the result
      is the slice of `s` that starts after its leading whitespace, and what
      follows it is whitespace too. */
  lemma {:induction false} StripIsTrimmedSlice(s: string)
    ensures TrimmedSlice(s, |s| - |TrimStart(s)|, Strip(s))
  {
    var t := TrimStart(s);
    var r := TrimEnd(t);
    SliceOfSuffix(s, t, r, |s| - |t|);
  }

  /** A prefix `r` of the suffix `t` of `s` that starts at `i` is the slice of
      `s` from `i`, and what follows it in `t` is what follows it in `s`. */
  lemma SliceOfSuffix(s: string, t: string, r: string, i: nat)
    requires i <= |s| && t == s[i..] && |r| <= |t| && r == t[..|r|]
    requires AllSpace(s[..i]) && AllSpace(t[|r|..])
    ensures TrimmedSlice(s, i, r)
  {
    assert t[|r|..] == s[i + |r|..];
  }

  /** A string of whitespace only strips to the empty string, and nothing else does. */
  lemma StripEmptyIffAllSpace(s: string)
    ensures Strip(s) == "" <==> AllSpace(s)
  {
    var t := TrimStart(s);
    if Strip(s) == "" {
      assert AllSpace(t[0..]);
      assert t == [];
      assert s[..|s|] == s;
    }
  }

  /** Stripping leaves a string with no whitespace at its ends unchanged. */
  lemma StripTrimmed(s: string)
    requires Trimmed(s)
    ensures Strip(s) == s
  {
  }

  /** Stripping twice is stripping once. */
  lemma StripIdempotent(s: string)
    ensures Strip(Strip(s)) == Strip(s)
  {
    StripIsTrimmedSlice(s);
    StripTrimmed(Strip(s));
  }

  predicate StartsWith(s: string, prefix: string)
  {
    |prefix| <= |s| && s[..|prefix|] == prefix
  }

  /** The outcome of the form check: the first missing required field, or acceptance. */
  datatype FormCheck = Accepted | MissingName | MissingProvince

  /** The form check run before a company is added or saved: the (stripped)
      name is checked first, then the province. */
  function Validate(nombre: string, provincia: string): (r: FormCheck)
    ensures r == Accepted <==> nombre != "" && provincia != ""
    ensures r == MissingName <==> nombre == ""
    ensures r == MissingProvince <==> nombre != "" && provincia == ""
  {
    if nombre == "" then MissingName
    else if provincia == "" then MissingProvince
    else Accepted
  }

  /** The address the "open link" button hands to the browser: nothing for a
      link that strips to empty, the stripped link when it starts with "http",
      and otherwise the stripped link behind "https://". */
  function NormalizeLink(raw: string): (r: Option<string>)
    ensures r.None? <==> Strip(raw) == ""
    ensures r.Some? ==> StartsWith(r.value, "http")
  {
    var link := Strip(raw);
    if link == "" then None
    else if StartsWith(link, "http") then Some(link)
    else SecurePrefixStartsHttp(link); Some("https://" + link)
  }

  /** "https://" before any text starts with "http". */
  lemma SecurePrefixStartsHttp(link: string)
    ensures StartsWith("https://" + link, "http")
  {
    assert ("https://" + link)[..4] == "http";
  }

  /** A link opens something exactly when it is not blank; what is opened
      always starts with "http" and has no whitespace at its ends. */
  lemma NormalizeLinkShape(raw: string)
    ensures NormalizeLink(raw).None? <==> AllSpace(raw)
    ensures NormalizeLink(raw).Some? ==>
      StartsWith(NormalizeLink(raw).value, "http") && Trimmed(NormalizeLink(raw).value)
  {
    var link := Strip(raw);
    StripEmptyIffAllSpace(raw);
    StripHasTrimmedEnds(raw);
    if link != "" && !StartsWith(link, "http") {
      var out := "https://" + link;
      assert out[0] == 'h';
      assert out[|out| - 1] == link[|link| - 1];
      assert out[..4] == "http";
    }
  }

  /** The scheme is added only when the stripped link lacks the "http"
      prefix, and then the stripped link follows "https://" unchanged. */
  lemma NormalizeLinkPrefix(raw: string)
    requires !AllSpace(raw)
    ensures StartsWith(Strip(raw), "http") ==> NormalizeLink(raw) == Some(Strip(raw))
    ensures !StartsWith(Strip(raw), "http") ==> NormalizeLink(raw) == Some("https://" + Strip(raw))
  {
    StripEmptyIffAllSpace(raw);
  }

  /** Normalising an address already normalised changes nothing. */
  lemma NormalizeLinkIdempotent(raw: string)
    requires NormalizeLink(raw).Some?
    ensures NormalizeLink(NormalizeLink(raw).value) == NormalizeLink(raw)
  {
    var out := NormalizeLink(raw).value;
    NormalizeLinkShape(raw);
    StripTrimmed(out);
  }

  /** A link that already names a web scheme. */
  predicate HasWebScheme(s: string)
  {
    StartsWith(s, "http://") || StartsWith(s, "https://")
  }

  /** The "http" test lets through a bare host name that merely starts with
      those four letters: such a link reaches the browser without any scheme. */
  lemma NormalizeLinkPassesBareHost(host: string)
    requires host == "httpbin.org"
    ensures NormalizeLink(host) == Some(host)
    ensures !HasWebScheme(host)
  {
    assert host[..4] == "http";
    assert host[4] == 'b';
    assert !IsSpace(host[0]) && !IsSpace(host[|host| - 1]);
    StripTrimmed(host);
  }

  /** The normalisation with the scheme test the prefix rule evidently
      intends: "https://" is added unless the link already names a web scheme. */
  function NormalizeLinkWithScheme(raw: string): (r: Option<string>)
  {
    var link := Strip(raw);
    if link == "" then None
    else if HasWebScheme(link) then Some(link)
    else Some("https://" + link)
  }

  /** Putting "https://" before a non-empty link with no whitespace at its
      ends gives an address with a web scheme and no whitespace at its ends. */
  lemma SecurePrefixShape(link: string)
    requires link != [] && Trimmed(link)
    ensures HasWebScheme("https://" + link) && Trimmed("https://" + link)
  {
    var out := "https://" + link;
    assert out[..8] == "https://";
    assert out[0] == 'h';
    assert out[|out| - 1] == link[|link| - 1];
  }

  /** An address with a web scheme and no whitespace at its ends is opened as it is. */
  lemma NormalizeLinkWithSchemeFixed(out: string)
    requires HasWebScheme(out) && Trimmed(out)
    ensures NormalizeLinkWithScheme(out) == Some(out)
  {
    StripTrimmed(out);
    var link := Strip(out);
    assert link == out && link != "";
  }

  /** With the scheme test, whatever is opened names a web scheme, a blank
      link opens nothing, and normalising again changes nothing. */
  lemma NormalizeLinkWithSchemeShape(raw: string)
    ensures NormalizeLinkWithScheme(raw).None? <==> AllSpace(raw)
    ensures NormalizeLinkWithScheme(raw).Some? ==>
      && HasWebScheme(NormalizeLinkWithScheme(raw).value)
      && NormalizeLinkWithScheme(NormalizeLinkWithScheme(raw).value) == NormalizeLinkWithScheme(raw)
  {
    var link := Strip(raw);
    StripEmptyIffAllSpace(raw);
    StripHasTrimmedEnds(raw);
    if link != "" {
      if HasWebScheme(link) {
        NormalizeLinkWithSchemeFixed(link);
      } else {
        SecurePrefixShape(link);
        NormalizeLinkWithSchemeFixed("https://" + link);
      }
    }
  }

  /** The two normalisations agree on every link except those that start
      with "http" without naming a web scheme. */
  lemma NormalizeLinkAgreesWithScheme(raw: string)
    requires HasWebScheme(Strip(raw)) || !StartsWith(Strip(raw), "http")
    ensures NormalizeLink(raw) == NormalizeLinkWithScheme(raw)
  {
    var link := Strip(raw);
    if HasWebScheme(link) {
      WebSchemeStartsHttp(link);
    }
  }

  /** An address with a web scheme starts with "http". */
  lemma WebSchemeStartsHttp(s: string)
    requires HasWebScheme(s)
    ensures StartsWith(s, "http")
  {
    if StartsWith(s, "http://") {
      assert s[..4] == s[..7][..4];
    } else {
      assert s[..4] == s[..8][..4];
    }
  }
}
