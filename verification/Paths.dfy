/** Concrete field paths such as `chapter_contract.information.reveal[0]`. */
module Paths {
  import opened Text

  predicate IdentStart(c: char) {
    'A' <= c <= 'Z' || 'a' <= c <= 'z' || c == '_'
  }

  predicate IdentChar(c: char) {
    IdentStart(c) || IsDigit(c)
  }

  predicate IsIdentifier(s: string) {
    s != "" && IdentStart(s[0]) && forall c <- s :: IdentChar(c)
  }

  /** Where a left-to-right reading of a path stands. */
  datatype Reading = NameStart | Name | IndexStart | Index | IndexEnd

  /** Whether the rest `s` of a path completes it. */
  predicate Completes(s: string, at: Reading) {
    if s == "" then at.Name? || at.IndexEnd?
    else
      match at
      case NameStart => IdentStart(s[0]) && Completes(s[1..], Name)
      case Name =>
        if IdentChar(s[0]) then Completes(s[1..], Name)
        else if s[0] == '[' then Completes(s[1..], IndexStart)
        else s[0] == '.' && Completes(s[1..], NameStart)
      case IndexStart => IsDigit(s[0]) && Completes(s[1..], Index)
      case Index => if IsDigit(s[0]) then Completes(s[1..], Index) else s[0] == ']' && Completes(s[1..], IndexEnd)
      case IndexEnd => s[0] == '.' && Completes(s[1..], NameStart)
  }

  predicate IsPath(s: string) {
    Completes(s, NameStart)
  }

  predicate StartsWith(s: string, prefix: string) {
    prefix <= s
  }

  predicate EndsWith(s: string, suffix: string) {
    |suffix| <= |s| && s[|s| - |suffix|..] == suffix
  }

  /** A pattern `p.*` covers `p` and everything below it; `p[*]` covers `p`, its items and everything below them. */
  predicate PathMatches(pattern: string, path: string) {
    if EndsWith(pattern, ".*") then
      var prefix := pattern[..|pattern| - 2];
      path == prefix || StartsWith(path, prefix + ".")
    else if EndsWith(pattern, "[*]") then
      var prefix := pattern[..|pattern| - 3];
      path == prefix || (StartsWith(path, prefix + "[") && Completes(path[|prefix| + 1..], IndexStart))
    else path == pattern
  }

  /** Inside a name every further identifier character is read past. */
  lemma {:induction false} NameReadsOn(name: string, rest: string)
    requires forall c <- name :: IdentChar(c)
    ensures Completes(name + rest, Name) == Completes(rest, Name)
  {
    if name == "" {
      assert name + rest == rest;
    } else {
      assert name[0] in name && (name + rest)[1..] == name[1..] + rest;
      assert forall c <- name[1..] :: c in name;
      NameReadsOn(name[1..], rest);
    }
  }

  /** An identifier is a path, and so is a path below it. */
  lemma IdentifierStartsPath(name: string, rest: string)
    requires IsIdentifier(name)
    ensures IsPath(name) && (IsPath(rest) ==> IsPath(name + "." + rest))
  {
    assert name[1..] + "" == name[1..];
    assert forall c <- name[1..] :: c in name;
    NameReadsOn(name[1..], "");
    var below := "." + rest;
    assert (name + "." + rest)[1..] == name[1..] + below && below[1..] == rest;
    NameReadsOn(name[1..], below);
  }
}
