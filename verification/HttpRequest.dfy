/** HttpRequest: the fields the parser fills in. */
module HttpRequestModule {
  import opened Bytes

  datatype Method = Invalid | Get | Post | Head | Put | Delete

  datatype Request = Request(verb: Method, path: string, query: string, receiveTime: int, headers: map<string, string>)

  const EMPTY_REQUEST := Request(Invalid, "", "", 0, map[])

  function MethodOf(s: string): Method {
    if s == "GET" then Get
    else if s == "POST" then Post
    else if s == "HEAD" then Head
    else if s == "PUT" then Put
    else if s == "DELETE" then Delete
    else Invalid
  }

  // methodString
  function MethodString(verb: Method): string {
    match verb
    case Get => "GET"
    case Post => "POST"
    case Head => "HEAD"
    case Put => "PUT"
    case Delete => "DELETE"
    case Invalid => "UNKNOWN"
  }

  /** setMethod and methodString are inverse: a word is read as a valid method exactly if it is
      that method's string. */
  lemma MethodRoundTrip(s: string, verb: Method)
    ensures verb != Invalid ==> (MethodOf(s) == verb <==> s == MethodString(verb))
  {
  }

  // isspace in the C locale
  predicate IsSpace(c: char) {
    c == ' ' || 9 <= c as int <= 13
  }

  /** White space is the space, the tab, the newline, the two other feeds and the carriage
      return, and nothing else. */
  lemma SpacesAre(c: char)
    ensures IsSpace(c) <==> c in {' ', '\t', '\n', '\r', 11 as char, 12 as char}
  {
    assert '\t' as int == 9 && '\n' as int == 10 && '\r' as int == 13;
    assert c as int == 11 ==> c == 11 as char;
  }

  function TrimLeft(s: string): (t: string)
    ensures |t| <= |s|
  {
    if s != "" && IsSpace(s[0]) then TrimLeft(s[1..]) else s
  }

  function TrimRight(s: string): string {
    if s != "" && IsSpace(s[|s| - 1]) then TrimRight(s[..|s| - 1]) else s
  }

  // No white space at either end
  predicate Trimmed(s: string) {
    s != "" ==> !IsSpace(s[0]) && !IsSpace(s[|s| - 1])
  }

  predicate AllSpace(s: string) {
    forall i | 0 <= i < |s| :: IsSpace(s[i])
  }

  function Trim(s: string): string {
    TrimRight(TrimLeft(s))
  }

  // The white space that trimming takes off the front and off the back
  ghost function LeftPad(s: string): string {
    s[..|s| - |TrimLeft(s)|]
  }

  lemma {:induction false} TrimLeftSplit(s: string)
    ensures s == LeftPad(s) + TrimLeft(s) && AllSpace(LeftPad(s))
    ensures TrimLeft(s) != "" ==> !IsSpace(TrimLeft(s)[0])
  {
    if s != "" && IsSpace(s[0]) {
      TrimLeftSplit(s[1..]);
      assert LeftPad(s) == [s[0]] + LeftPad(s[1..]);
    }
  }

  lemma {:induction false} TrimRightSplit(s: string) returns (pad: string)
    ensures s == TrimRight(s) + pad && AllSpace(pad)
    ensures TrimRight(s) != "" ==> !IsSpace(TrimRight(s)[|TrimRight(s)| - 1])
  {
    if s != "" && IsSpace(s[|s| - 1]) {
      pad := TrimRightSplit(s[..|s| - 1]);
      pad := pad + [s[|s| - 1]];
    } else {
      pad := "";
    }
  }

  /** Trimming takes off white space only, and all of it. */
  lemma TrimMeaning(s: string) returns (left: string, right: string)
    ensures s == left + Trim(s) + right && AllSpace(left) && AllSpace(right) && Trimmed(Trim(s))
  {
    TrimLeftSplit(s);
    left := LeftPad(s);
    right := TrimRightSplit(TrimLeft(s));
    JoinTrimmed(s, left, TrimLeft(s), Trim(s), right);
  }

  lemma JoinTrimmed(s: string, left: string, tail: string, core: string, right: string)
    requires s == left + tail && tail == core + right
    requires (tail != "" ==> !IsSpace(tail[0])) && (core != "" ==> !IsSpace(core[|core| - 1]))
    ensures s == left + core + right && Trimmed(core)
  {
    assert left + (core + right) == left + core + right;
    assert core != "" ==> tail[0] == core[0];
  }

  lemma {:induction false} TrimLeftPadded(left: string, t: string)
    requires AllSpace(left) && (t != "" ==> !IsSpace(t[0]))
    ensures TrimLeft(left + t) == t
  {
    if left != "" {
      assert (left + t)[1..] == left[1..] + t;
      TrimLeftPadded(left[1..], t);
    } else {
      assert left + t == t;
    }
  }

  class HttpRequest {
    var verb: Method
    var path: string
    var query: string
    var receiveTime: int
    var headers: map<string, string>

    function Value(): Request
      reads this
    {
      Request(verb, path, query, receiveTime, headers)
    }

    constructor ()
      ensures Value() == EMPTY_REQUEST
    {
      verb, path, query, receiveTime, headers := Invalid, "", "", 0, map[];
    }

    /** setMethod: succeeds exactly for the string of a valid method, which methodString then
        gives back. */
    method SetMethod(m: string) returns (ok: bool)
      requires verb == Invalid
      modifies this`verb
      ensures ok <==> exists v: Method :: v != Invalid && m == MethodString(v)
      ensures if ok then verb != Invalid && m == MethodString(verb) else verb == Invalid
      ensures Value() == old(Value()).(verb := MethodOf(m))
    {
      if m == "GET" {
        verb := Get;
      } else if m == "POST" {
        verb := Post;
      } else if m == "HEAD" {
        verb := Head;
      } else if m == "PUT" {
        verb := Put;
      } else if m == "DELETE" {
        verb := Delete;
      } else {
        verb := Invalid;
      }
      ok := verb != Invalid;
      forall v: Method ensures v != Invalid && m == MethodString(v) ==> verb == v {
        MethodRoundTrip(m, v);
      }
      MethodRoundTrip(m, verb);
    }

    /** addHeader on a line with a colon at the given place. */
    method AddHeader(line: string, colon: nat)
      requires colon < |line|
      modifies this`headers
      ensures Value() == old(Value()).(headers := old(headers)[line[..colon] := Trim(line[colon + 1..])])
    {
      var field := line[..colon];
      var start := colon + 1;
      while start < |line| && IsSpace(line[start])
        invariant colon < start <= |line|
        invariant TrimLeft(line[colon + 1..]) == TrimLeft(line[start..])
      {
        assert line[start..][1..] == line[start + 1..];
        start := start + 1;
      }
      var value := line[start..];
      while value != "" && IsSpace(value[|value| - 1])
        invariant TrimRight(line[start..]) == TrimRight(value)
        decreases |value|
      {
        value := value[..|value| - 1];
      }
      headers := headers[field := value];
    }

    // swap with a new request
    method SwapWithNew()
      modifies this
      ensures Value() == EMPTY_REQUEST
    {
      verb, path, query, receiveTime, headers := Invalid, "", "", 0, map[];
    }
  }
}
