/** manifest_record_set_ids_from_component_id: the name buffer, edited in place. */
module ComponentNames {
  import opened Basics
  import opened TcTable

  /** The C string at the start of a buffer. */
  function CString(b: Bytes): (s: Name)
    ensures |s| <= |b| && s == b[..|s|] && 0 !in s
    ensures |s| < |b| ==> b[|s|] == 0
  {
    if b == [] || b[0] == 0 then []
    else
      assert b[1..][..|CString(b[1..])|] == b[1..|CString(b[1..])| + 1];
      [b[0]] + CString(b[1..])
  }

  /** `text` with its terminator fits in `n` characters. */
  predicate Fits(text: Name, n: nat) {
    |text| < n && 0 !in text
  }

  lemma {:induction false} TerminatedText(b: Bytes, text: Name)
    requires Fits(text, |b|) && b[..|text|] == text && b[|text|] == 0
    ensures CString(b) == text
  {
    var s := CString(b);
    assert forall k :: 0 <= k < |text| ==> b[k] == text[k] && text[k] in text;
    assert forall k :: 0 <= k < |s| ==> s[k] in s;
    assert s == b[..|text|];
  }

  lemma {:induction false} TrimStep(s: Name, k: nat)
    requires k <= |s| && TrimSlashes(s) == TrimSlashes(s[k..])
    ensures k < |s| && s[k] == SLASH ==> TrimSlashes(s) == TrimSlashes(s[k + 1..])
    ensures k == |s| || s[k] != SLASH ==> TrimSlashes(s) == s[k..]
  {
    if k < |s| { assert s[k..][1..] == s[k + 1..]; }
  }

  /** What the library conversion leaves in the buffer. */
  method WriteText(text: Name, filename: array<byte>)
    requires Fits(text, filename.Length)
    modifies filename
    ensures filename[..|text|] == text && filename[|text|] == 0
  {
    forall k | 0 <= k < |text| {
      filename[k] := text[k];
    }
    filename[|text|] := 0;
  }

  method CountSlashes(ghost text: Name, filename: array<byte>) returns (trimmed: nat)
    requires Fits(text, filename.Length) && filename[..|text|] == text && filename[|text|] == 0
    ensures trimmed <= |text| && text[trimmed..] == TrimSlashes(text)
  {
    trimmed := 0;
    while filename[trimmed] == SLASH
      invariant trimmed <= |text|
      invariant TrimSlashes(text) == TrimSlashes(text[trimmed..])
      decreases |text| - trimmed
    {
      assert filename[..|text|][trimmed] == text[trimmed];
      TrimStep(text, trimmed);
      trimmed := trimmed + 1;
    }
    assert trimmed < |text| ==> filename[..|text|][trimmed] == text[trimmed];
    TrimStep(text, trimmed);
  }

  /** Strip the leading slashes of the text in the buffer. */
  method TrimInPlace(ghost text: Name, filename: array<byte>)
    requires Fits(text, filename.Length) && filename[..|text|] == text && filename[|text|] == 0
    modifies filename
    ensures CString(filename[..]) == TrimSlashes(text)
  {
    var trimmed := CountSlashes(text, filename);
    if trimmed != 0 {
      Shift(filename, trimmed, text);
    }
    TerminatedText(filename[..], text[trimmed..]);
  }

  /** memmove of the string at offset `skip` to the start, with its terminator. */
  method Shift(filename: array<byte>, skip: nat, ghost text: Name)
    requires skip <= |text| && Fits(text, filename.Length)
    requires filename[..|text|] == text && filename[|text|] == 0
    modifies filename
    ensures filename[..|text| - skip] == text[skip..] && filename[|text| - skip] == 0
  {
    assert forall k :: 0 <= k < |text| ==> filename[k] == text[k] && text[k] in text;
    var n := skip;
    while filename[n] != 0
      invariant skip <= n <= |text|
      decreases |text| - n
    {
      n := n + 1;
    }
    forall k | 0 <= k < n - skip {
      filename[k] := filename[skip + k];
    }
    filename[n - skip] := 0;
  }

  /** The name field ends up as the converted text without its leading slashes, as the failed
      conversion left it, or untouched; it is terminated in every case. */
  method SetIdsFromComponentId(u: NameUpdate, filename: array<byte>) returns (ok: bool)
    requires |CString(filename[..])| < filename.Length
    requires u.Unconvertible? ==> Fits(u.left, filename.Length)
    requires u.Converted? ==> Fits(u.text, filename.Length)
    modifies filename
    ensures CString(filename[..]) == NameAfter(old(CString(filename[..])), u)
    ensures u.Undecodable? ==> CString(filename[..]) == old(CString(filename[..]))
    ensures u.Unconvertible? ==> CString(filename[..]) == u.left
    ensures u.Converted? ==> CString(filename[..]) == TrimSlashes(u.text)
    ensures |CString(filename[..])| < filename.Length
    ensures ok == u.Converted?
  {
    match u {
      case Undecodable =>
      case Unconvertible(left) =>
        WriteText(left, filename);
        TerminatedText(filename[..], left);
      case Converted(text) =>
        WriteText(text, filename);
        TrimInPlace(text, filename);
    }
    ok := u.Converted?;
  }
}
