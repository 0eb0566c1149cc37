/** Values shared by every handler: identifiers, request fields, outcomes and
    the JavaScript string operations the handlers call. */
module Common {

  /** An opaque document identifier. The store hands them out in increasing
      order, so comparing two ids compares their insertion times. */
  type Id = nat

  /** An identifier as it arrives in a request: either something
      `isValidObjectId` accepts (and which then names an `Id`), or not. */
  datatype IdParam = ObjectId(id: Id) | Malformed(raw: string)

  predicate IsValidObjectId(p: IdParam) {
    p.ObjectId?
  }

  /** `ref.toString() === p.toString()`: a stored reference equals the
      identifier from the request. A malformed identifier equals nothing. */
  predicate SameId(ref: Id, p: IdParam) {
    p == ObjectId(ref)
  }

  datatype Option<+T> = None | Some(value: T)

  /** JavaScript truthiness of an optional identifier field: present, and
      not the empty string. */
  predicate PresentId(p: Option<IdParam>) {
    p.Some? && p.value != Malformed("")
  }

  /** What a handler answers: a payload with status 200/201, or an error status. */
  datatype Outcome<+T> = Ok(value: T) | Err(status: int)

  const BadRequest := 400
  const Unauthorized := 401
  const NotFound := 404
  const Conflict := 409
  const ServerError := 500

  /** JavaScript truthiness of an optional string field: present and not "". */
  predicate Truthy(s: Option<string>) {
    s.Some? && s.value != ""
  }

  /** The characters `String.prototype.trim` removes (ECMAScript WhiteSpace
      and LineTerminator code points). */
  predicate IsWhitespace(c: char) {
    c == ' ' || c == '\t' || c == '\n' || c == '\r' || c == '\U{B}' || c == '\U{C}'
    || c == '\U{A0}' || c == '\U{1680}' || ('\U{2000}' <= c <= '\U{200A}')
    || c == '\U{2028}' || c == '\U{2029}' || c == '\U{202F}' || c == '\U{205F}'
    || c == '\U{3000}' || c == '\U{FEFF}'
  }

  predicate IsBlank(s: string) {
    forall i :: 0 <= i < |s| ==> IsWhitespace(s[i])
  }

  /** `s.trimStart()`: the suffix of `s` left after removing its leading
      whitespace; empty exactly when `s` is blank. */
  function TrimStart(s: string): (r: string)
    ensures |r| <= |s| && r == s[|s| - |r|..]
    ensures IsBlank(s[..|s| - |r|])
    ensures r == "" || !IsWhitespace(r[0])
    ensures r == "" <==> IsBlank(s)
  {
    if |s| > 0 && IsWhitespace(s[0]) then
      var t := s[1..];
      var r := TrimStart(t);
      assert forall k :: 0 <= k < |s| - |r| ==> IsWhitespace(s[k]) by {
        forall k | 0 <= k < |s| - |r| ensures IsWhitespace(s[k]) {
          if k > 0 { assert s[k] == t[..|t| - |r|][k - 1]; }
        }
      }
      r
    else s
  }

  /** `s.trimEnd()`: the prefix of `s` left after removing its trailing
      whitespace; empty exactly when `s` is blank. */
  function TrimEnd(s: string): (r: string)
    ensures |r| <= |s| && r == s[..|r|]
    ensures IsBlank(s[|r|..])
    ensures r == "" || !IsWhitespace(r[|r| - 1])
    ensures r == "" <==> IsBlank(s)
  {
    if |s| > 0 && IsWhitespace(s[|s| - 1]) then
      var t := s[..|s| - 1];
      var r := TrimEnd(t);
      assert forall k :: |r| <= k < |s| ==> IsWhitespace(s[k]) by {
        forall k | |r| <= k < |s| ensures IsWhitespace(s[k]) {
          if k < |s| - 1 { assert s[k] == t[|r|..][k - |r|]; }
        }
      }
      r
    else s
  }

  /** `s.trim()`: neither starts nor ends with whitespace, and is empty
      exactly when `s` is blank, so the guard `x.trim() === ""` fires on
      blank strings and on nothing else. */
  function Trim(s: string): (r: string)
    ensures |r| <= |s|
    ensures r == "" || (!IsWhitespace(r[0]) && !IsWhitespace(r[|r| - 1]))
    ensures r == "" <==> IsBlank(s)
  {
    var a := TrimStart(s);
    var r := TrimEnd(a);
    assert r != "" ==> r[0] == a[0];
    r
  }

  /** ASCII case mapping; see the README for what is not covered. */
  function LowerChar(c: char): char {
    if 'A' <= c <= 'Z' then (c as int + 32) as char else c
  }

  /** `s.toLowerCase()` on ASCII letters: same length, every upper-case
      ASCII letter replaced by its lower-case counterpart, every other
      character kept. */
  function ToLower(s: string): (r: string)
    ensures |r| == |s|
    ensures forall i :: 0 <= i < |r| ==> !('A' <= r[i] <= 'Z')
    ensures forall i :: 0 <= i < |r| && !('A' <= s[i] <= 'Z') ==> r[i] == s[i]
    ensures forall i :: 0 <= i < |s| && 'A' <= s[i] <= 'Z' ==> r[i] as int == s[i] as int + 32
  {
    if s == [] then [] else [LowerChar(s[0])] + ToLower(s[1..])
  }

  lemma {:induction false} ToLowerIdempotent(s: string)
    ensures ToLower(ToLower(s)) == ToLower(s)
  {
    var t := ToLower(s);
    var u := ToLower(t);
    assert |u| == |t|;
    forall i | 0 <= i < |u| ensures u[i] == t[i] { }
  }
}
