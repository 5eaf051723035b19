/** components/InputForm.tsx: what a submission of the form hands to the
    analysis, and when the submit button is enabled. */
module InputForm {
  import opened Types
  import opened Text

  /** The case folding of a regular expression with the `i` flag and
      without `u`: only ASCII letters change. */
  function LowerAscii(c: char): (r: char)
    ensures 'A' <= c <= 'Z' ==> r as int == c as int + 32
    ensures !('A' <= c <= 'Z') ==> r == c
  {
    if 'A' <= c <= 'Z' then (c as int + 32) as char else c
  }

  /** `s` starts with the lower-case `prefix`, ignoring ASCII case. */
  predicate StartsWithIgnoringCase(s: string, prefix: string)
  {
    |prefix| <= |s| && forall i :: 0 <= i < |prefix| ==> LowerAscii(s[i]) == prefix[i]
  }

  /** `/^https?:\/\//i.test(s)`. */
  predicate HasHttpScheme(s: string)
  {
    StartsWithIgnoringCase(s, "http://") || StartsWithIgnoringCase(s, "https://")
  }

  const DefaultScheme := "https://"

  /** The address sent for analysis: the input trimmed, with `https://`
      put in front unless it already names http or https. */
  function NormalizeUrl(url: string): (r: string)
    ensures HasHttpScheme(r)
    ensures r == Trim(url) || r == DefaultScheme + Trim(url)
    ensures HasHttpScheme(Trim(url)) <==> r == Trim(url)
  {
    var t := Trim(url);
    if HasHttpScheme(t) then t
    else
      assert StartsWithIgnoringCase(DefaultScheme + t, "https://") by {
        assert forall i :: 0 <= i < 8 ==> (DefaultScheme + t)[i] == "https://"[i];
      }
      DefaultScheme + t
  }

  /** `disabled={isLoading || !url}`. */
  predicate SubmitDisabled(url: string, isLoading: bool)
  {
    isLoading || url == ""
  }

  /** `handleSubmit`: when the form has a URL and no analysis is running,
      calls `onAnalyze` with the normalised URL and the goal as typed;
      otherwise does nothing. */
  method HandleSubmit(url: string, goal: string, isLoading: bool) returns (call: Option<AnalyzeArgs>)
    ensures call.Some? <==> !SubmitDisabled(url, isLoading)
    ensures call.Some? ==> call.value.url == NormalizeUrl(url) && call.value.goal == goal
  {
    call := None;
    if url != "" && !isLoading {
      var finalUrl := Trim(url);
      if !HasHttpScheme(finalUrl) {
        finalUrl := DefaultScheme + finalUrl;
      }
      call := Some(AnalyzeArgs(finalUrl, goal));
    }
  }

  lemma SchemeIsTrimmed(t: string)
    requires IsTrimmed(t)
    ensures IsTrimmed(DefaultScheme + t)
  {
    var s := DefaultScheme + t;
    assert s[0] == 'h';
    if t == [] {
      assert s == DefaultScheme;
    } else {
      assert s[|s| - 1] == t[|t| - 1];
    }
  }

  /** Submitting an address that was itself the result of a submission
      sends it unchanged. */
  lemma NormalizeIdempotent(url: string)
    ensures NormalizeUrl(NormalizeUrl(url)) == NormalizeUrl(url)
  {
    var t := Trim(url);
    TrimProperties(url);
    var r := NormalizeUrl(url);
    if r != t {
      SchemeIsTrimmed(t);
      TrimProperties(r);
    }
  }

  /** The typed text survives: apart from surrounding whitespace, the sent
      address ends with what was typed. */
  lemma NormalizeKeepsInput(url: string)
    ensures var r := NormalizeUrl(url); r[|r| - |Trim(url)|..] == Trim(url)
  {
  }

  /** An address typed with an upper-case scheme is kept as typed. */
  lemma UpperCaseSchemeKept(rest: string)
    requires IsTrimmed("HTTP://" + rest)
    ensures NormalizeUrl("HTTP://" + rest) == "HTTP://" + rest
  {
    var s := "HTTP://" + rest;
    assert forall i :: 0 <= i < 7 ==> LowerAscii(s[i]) == "http://"[i];
    TrimProperties(s);
  }

  /** An input of whitespace only is not empty, so it is submitted, as the
      bare scheme. */
  lemma BlankInputSendsBareScheme(url: string)
    requires url != [] && forall i :: 0 <= i < |url| ==> IsWhitespace(url[i])
    ensures !SubmitDisabled(url, false)
    ensures NormalizeUrl(url) == DefaultScheme
  {
    assert TrimStart(url) == [];
    assert !HasHttpScheme([]);
    assert DefaultScheme + [] == DefaultScheme;
  }
}
