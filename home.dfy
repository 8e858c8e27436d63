/** The home page (home.ts and its hook-based twin home.tsx): creating a room and sharing
    its link with the key in the fragment, joining by a typed code, the busy guard; and the
    room page's reading of that key back out of `location.hash`. Navigation is the
    `location` field; `fetch("/api/rooms")` is its outcome (`None` when it throws) and
    `getRandomValues` is the key array handed in. */
module Home {
  import opened Common
  import opened Base64
  import Worker

  // ---------------------------------------------------------------- strings

  /** What `String.prototype.trim` removes: ECMAScript WhiteSpace and LineTerminator. */
  predicate IsJsSpace(c: char)
  {
    c == '\t' || c == '\n' || c == '\U{000B}' || c == '\U{000C}' || c == '\r' || c == ' '
    || c == '\U{00A0}' || c == '\U{1680}' || ('\U{2000}' <= c <= '\U{200A}')
    || c == '\U{2028}' || c == '\U{2029}' || c == '\U{202F}' || c == '\U{205F}'
    || c == '\U{3000}' || c == '\U{FEFF}'
  }

  predicate AllSpace(s: string)
  {
    forall k :: 0 <= k < |s| ==> IsJsSpace(s[k])
  }

  /** The leading whitespace removed: what is left is a suffix that starts with a
      non-space, and all that was dropped was whitespace. */
  function TrimStart(s: string): (r: string)
    ensures |r| <= |s| && r == s[|s| - |r|..]
    ensures r != [] ==> !IsJsSpace(r[0])
    ensures AllSpace(s[..|s| - |r|])
    decreases |s|
  {
    if s != [] && IsJsSpace(s[0]) then
      var r := TrimStart(s[1..]);
      assert s[..|s| - |r|] == [s[0]] + s[1..][..|s| - 1 - |r|];
      r
    else s
  }

  /** The trailing whitespace removed, symmetrically. */
  function TrimEnd(s: string): (r: string)
    ensures |r| <= |s| && r == s[..|r|]
    ensures r != [] ==> !IsJsSpace(r[|r| - 1])
    ensures AllSpace(s[|r|..])
    decreases |s|
  {
    if s != [] && IsJsSpace(s[|s| - 1]) then
      var init := s[..|s| - 1];
      var r := TrimEnd(init);
      assert s[|r|..] == init[|r|..] + [s[|s| - 1]];
      r
    else s
  }

  /** `s.trim()`. */
  function Trim(s: string): (r: string)
    ensures Trimmed(r)
  {
    TrimEnd(TrimStart(s))
  }

  /** A string with no whitespace at either end. */
  predicate Trimmed(s: string)
  {
    s != [] ==> !IsJsSpace(s[0]) && !IsJsSpace(s[|s| - 1])
  }

  /** `trim` leaves a trimmed string alone. */
  lemma TrimNoop(s: string)
    requires Trimmed(s)
    ensures Trim(s) == s
  {
    if s != [] {
      assert TrimStart(s) == s;
      assert TrimEnd(s) == s;
    }
  }

  /** `trim` of a string padded with whitespace on both sides is the trimmed middle. */
  lemma {:induction false} TrimAround(pre: string, x: string, post: string)
    requires AllSpace(pre) && AllSpace(post) && Trimmed(x)
    ensures Trim(pre + x + post) == x
  {
    if x == [] {
      assert pre + x + post == pre + post;
      assert AllSpace(pre + post);
      TrimEndAll(TrimStart(pre + post));
    } else {
      assert TrimStart(pre + x + post) == x + post by {
        assert pre + x + post == pre + (x + post);
        TrimStartPadded(pre, x + post);
      }
      TrimEndPadded(x, post);
    }
  }

  lemma {:induction false} TrimStartPadded(pre: string, rest: string)
    requires AllSpace(pre) && (rest != [] ==> !IsJsSpace(rest[0]))
    ensures TrimStart(pre + rest) == rest
    decreases |pre|
  {
    if pre != [] {
      assert (pre + rest)[1..] == pre[1..] + rest;
      TrimStartPadded(pre[1..], rest);
    }
  }

  lemma {:induction false} TrimEndPadded(rest: string, post: string)
    requires AllSpace(post) && (rest != [] ==> !IsJsSpace(rest[|rest| - 1]))
    ensures TrimEnd(rest + post) == rest
    decreases |post|
  {
    if post == [] {
      assert rest + post == rest;
    } else {
      assert (rest + post)[..|rest + post| - 1] == rest + post[..|post| - 1];
      TrimEndPadded(rest, post[..|post| - 1]);
    }
  }

  lemma TrimEndAll(post: string)
    requires AllSpace(post)
    ensures TrimEnd(post) == []
  {
  }

  /** ASCII upper-casing never turns whitespace into text or text into whitespace. */
  lemma UpperKeepsSpace(c: char)
    ensures IsJsSpace(UpperChar(c)) <==> IsJsSpace(c)
  {
  }

  // ---------------------------------------------------------------- joining

  /** `joinCode.trim().toUpperCase()`. */
  function JoinCode(input: string): (code: string)
  {
    ToUpper(Trim(input))
  }

  /** `handleJoin` / `joinBtn.onclick`: no navigation for an empty code, otherwise the
      room's path with the current fragment (and so the key) carried along. */
  function JoinTarget(input: string, hash: string): (r: Option<string>)
    ensures r.None? <==> Trim(input) == []
    ensures r.Some? ==> r.value == "/r/" + JoinCode(input) + hash
  {
    var code := JoinCode(input);
    if code == [] then None else Some("/r/" + code + hash)
  }

  /** The code is trimmed and upper case, so normalising it again changes nothing. */
  lemma {:induction false} JoinCodeIdempotent(input: string)
    ensures Trimmed(JoinCode(input))
    ensures JoinCode(JoinCode(input)) == JoinCode(input)
  {
    var t := Trim(input);
    var u := ToUpper(t);
    if u != [] {
      UpperKeepsSpace(t[0]);
      UpperKeepsSpace(t[|t| - 1]);
    }
    TrimNoop(u);
    UpperIdempotent(t);
  }

  lemma UpperIdempotent(s: string)
    ensures ToUpper(ToUpper(s)) == ToUpper(s)
  {
    assert forall i :: 0 <= i < |s| ==> UpperChar(UpperChar(s[i])) == UpperChar(s[i]);
  }

  /** A generated room id typed in lower case, with whitespace around it, joins that room. */
  lemma {:induction false} TypedIdJoins(pre: string, bytes: seq<byte>, post: string)
    requires AllSpace(pre) && AllSpace(post)
    ensures JoinCode(pre + ToLower(Worker.RoomIdOf(bytes)) + post) == Worker.RoomIdOf(bytes)
  {
    var id := Worker.RoomIdOf(bytes);
    var typed := ToLower(id);
    assert forall k :: 0 <= k < |id| ==> !IsJsSpace(typed[k]) && UpperChar(typed[k]) == id[k] by {
      AlphabetRange();
      forall k | 0 <= k < |id|
        ensures !IsJsSpace(typed[k]) && UpperChar(typed[k]) == id[k]
      {
        assert id[k] == Worker.Alphabet[bytes[k] % |Worker.Alphabet|];
        SymbolCase(id[k]);
      }
    }
    assert Trim(pre + typed + post) == typed by {
      TrimAround(pre, typed, post);
    }
    assert ToUpper(typed) == id;
  }

  /** Every room-id symbol is an upper-case letter or a digit. */
  lemma AlphabetRange()
    ensures forall k :: 0 <= k < |Worker.Alphabet| ==>
      ('A' <= Worker.Alphabet[k] <= 'Z') || ('2' <= Worker.Alphabet[k] <= '9')
  {
  }

  /** Lower-casing an upper-case letter or a digit gives a non-space that upper-cases back. */
  lemma SymbolCase(c: char)
    requires ('A' <= c <= 'Z') || ('2' <= c <= '9')
    ensures !IsJsSpace(LowerChar(c)) && UpperChar(LowerChar(c)) == c
  {
  }

  // ---------------------------------------------------------------- links and keys

  /** The page `handleCreate` / `createBtn.onclick` navigates to: the room's path, with the
      URL-safe base64 of the 32-byte key in the fragment when encryption is on. */
  function CreateTarget(roomId: string, key: Option<seq<byte>>): (r: string)
    ensures |r| >= 3 + |roomId| && r[..3 + |roomId|] == "/r/" + roomId
    ensures '#' !in roomId && key.None? ==> HashOf(r) == ""
    ensures '#' !in roomId && key.Some? ==> HashOf(r) == "#k=" + UrlEncoding(key.value)
  {
    if '#' !in roomId && key.Some? then
      HashOfLink(roomId, "#k=" + UrlEncoding(key.value));
      assert "/r/" + roomId + "#k=" + UrlEncoding(key.value) == "/r/" + roomId + ("#k=" + UrlEncoding(key.value));
      "/r/" + roomId + "#k=" + UrlEncoding(key.value)
    else if '#' !in roomId then
      assert IndexOf("/r/" + roomId, '#') == |"/r/" + roomId| by {
        var u := "/r/" + roomId;
        assert forall j :: 3 <= j < |u| ==> u[j] == roomId[j - 3];
      }
      "/r/" + roomId
    else
    match key
    case None => "/r/" + roomId
    case Some(k) => "/r/" + roomId + "#k=" + UrlEncoding(k)
  }

  /** The first index of `c` in `s`, or `|s|`. */
  function IndexOf(s: string, c: char): (r: nat)
    ensures r <= |s| && (r < |s| ==> s[r] == c)
    ensures forall j :: 0 <= j < r ==> s[j] != c
  {
    if s == [] || s[0] == c then 0 else 1 + IndexOf(s[1..], c)
  }

  /** `location.hash` of a URL: from the first '#' on, or empty when there is no fragment
      or it is empty. */
  function HashOf(url: string): (h: string)
    ensures h != [] ==> h[0] == '#' && |h| >= 2
  {
    var i := IndexOf(url, '#');
    if i + 1 >= |url| then "" else url[i..]
  }

  /** `s.split(sep)`. */
  function Split(s: string, sep: char): (r: seq<string>)
    ensures r != []
    decreases |s|
  {
    var i := IndexOf(s, sep);
    if i == |s| then [s] else [s[..i]] + Split(s[i + 1..], sep)
  }

  /** The value of the first `name=value` field named `name`, as `URLSearchParams.get`
      finds it (a field without '=' has the empty value). */
  function FirstValue(fields: seq<string>, name: string): Option<string>
  {
    if fields == [] then None
    else
      var f := fields[0];
      var i := IndexOf(f, '=');
      if f[..i] == name then Some(if i < |f| then f[i + 1..] else "")
      else FirstValue(fields[1..], name)
  }

  /** `new URLSearchParams(query).get(name)`; a leading '?' is skipped. */
  function Param(query: string, name: string): Option<string>
  {
    var q := if query != [] && query[0] == '?' then query[1..] else query;
    FirstValue(Split(q, '&'), name)
  }

  /** What the room page makes of the key in its fragment: none when `k` is absent or
      empty, the key bytes when it decodes, malformed when `b64urlDecode` throws. */
  datatype KeyParse = NoKey | Key(bytes: seq<byte>) | Malformed

  function KeyOf(hash: string): (r: KeyParse)
    ensures r.Key? ==> hash != [] && exists v :: Param(hash[1..], "k") == Some(v) && UrlDecoding(v) == Some(r.bytes)
    ensures r.NoKey? <==> hash == [] || Param(hash[1..], "k") in {None, Some("")}
    ensures var p := if hash == [] then None else Param(hash[1..], "k");
      p.Some? && p.value != [] ==>
        (UrlDecoding(p.value).Some? ==> r == Key(UrlDecoding(p.value).value))
        && (UrlDecoding(p.value).None? ==> r == Malformed)
  {
    if hash == [] then NoKey
    else match Param(hash[1..], "k")
      case None => NoKey
      case Some(v) =>
        if v == [] then NoKey
        else match UrlDecoding(v)
          case None => Malformed
          case Some(b) => Key(b)
  }

  /** A link made with a key gives the room page exactly that key back. */
  lemma {:induction false} LinkCarriesKey(roomId: string, key: seq<byte>)
    requires '#' !in roomId && key != []
    ensures KeyOf(HashOf(CreateTarget(roomId, Some(key)))) == Key(key)
  {
    var e := UrlEncoding(key);
    assert e != [] && forall j :: 0 <= j < |e| ==> e[j] != '&' by {
      UrlAlphabet(key);
    }
    assert HashOf(CreateTarget(roomId, Some(key))) == "#k=" + e;
    assert ("#k=" + e)[1..] == "k=" + e;
    ParamOfKey(e);
    UrlRoundTrip(key);
  }

  /** The fragment of a room link is everything from its '#'. */
  lemma HashOfLink(roomId: string, frag: string)
    requires '#' !in roomId && |frag| >= 2 && frag[0] == '#'
    ensures HashOf("/r/" + roomId + frag) == frag
  {
    var path := "/r/" + roomId;
    assert '#' !in path;
    assert path + frag == "/r/" + roomId + frag;
    PrefixIndex(path, frag, '#');
    assert (path + frag)[|path|..] == frag;
  }

  /** `new URLSearchParams("k=" + v).get("k")` is `v` when `v` holds no '&'. */
  lemma ParamOfKey(v: string)
    requires forall j :: 0 <= j < |v| ==> v[j] != '&'
    ensures Param("k=" + v, "k") == Some(v)
  {
    var q := "k=" + v;
    assert forall j :: 0 <= j < |q| ==> q[j] != '&' by {
      assert forall j :: 2 <= j < |q| ==> q[j] == v[j - 2];
    }
    assert IndexOf(q, '&') == |q|;
    assert Split(q, '&') == [q];
    assert IndexOf(q, '=') == 1;
    assert q[..1] == "k" && q[2..] == v;
  }

  /** A link made without a key gives the room page none. */
  lemma LinkWithoutKey(roomId: string)
    requires '#' !in roomId
    ensures KeyOf(HashOf(CreateTarget(roomId, None))) == NoKey
  {
    PrefixIndex("/r/" + roomId, "", '#');
    assert "/r/" + roomId + "" == "/r/" + roomId;
  }

  /** Joining from a page keeps its fragment: the room reached sees the same key. */
  lemma {:induction false} JoinKeepsKey(input: string, hash: string)
    requires '#' !in JoinCode(input) && Trim(input) != []
    requires hash == [] || (hash[0] == '#' && |hash| >= 2)
    ensures HashOf(JoinTarget(input, hash).value) == hash
  {
    var path := "/r/" + JoinCode(input);
    assert JoinTarget(input, hash).value == path + hash;
    PrefixIndex(path, hash, '#');
    if hash == [] {
      assert path + hash == path;
    }
  }

  /** The first `c` of `a + b` is the first `c` of `b`, shifted, when `a` has none. */
  lemma PrefixIndex(a: string, b: string, c: char)
    requires c !in a
    ensures IndexOf(a + b, c) == |a| + IndexOf(b, c)
    decreases |a|
  {
    if a == [] {
      assert a + b == b;
    } else {
      assert (a + b)[0] == a[0] != c;
      assert (a + b)[1..] == a[1..] + b;
      PrefixIndex(a[1..], b, c);
    }
  }

  // ---------------------------------------------------------------- the page

  /** The home page's controls: the encryption toggle, the join field, the busy flag and
      the three controls it disables, and where the page has navigated to. */
  class HomePage {
    var encrypt: bool
    var busy: bool
    var createDisabled: bool
    var joinDisabled: bool
    var toggleDisabled: bool
    var joinCode: string
    var location: Option<string>

    /** While a creation is pending every control is disabled, and only then. */
    predicate Valid()
      reads this
    {
      createDisabled == busy && joinDisabled == busy && toggleDisabled == busy
    }

    /** A fresh page: encryption on, nothing pending, nowhere navigated. */
    constructor()
      ensures Valid() && encrypt && !busy && joinCode == [] && location.None?
    {
      encrypt := true;
      busy := false;
      createDisabled := false;
      joinDisabled := false;
      toggleDisabled := false;
      joinCode := [];
      location := None;
    }

    /** `setHomeBusy(b)`: the create button, the join button and the toggle follow `b`. */
    method SetHomeBusy(b: bool)
      modifies this
      ensures busy == b && Valid()
      ensures encrypt == old(encrypt) && joinCode == old(joinCode) && location == old(location)
    {
      busy := b;
      createDisabled := b;
      joinDisabled := b;
      toggleDisabled := b;
    }

    /** `handleEncryptToggle`. */
    method OnEncryptToggle(checked: bool)
      modifies this
      ensures encrypt == checked
      ensures busy == old(busy) && createDisabled == old(createDisabled) && joinDisabled == old(joinDisabled)
      ensures toggleDisabled == old(toggleDisabled) && joinCode == old(joinCode) && location == old(location)
    {
      encrypt := checked;
    }

    /** `handleJoinInput`. */
    method OnJoinInput(value: string)
      modifies this
      ensures joinCode == value
      ensures busy == old(busy) && createDisabled == old(createDisabled) && joinDisabled == old(joinDisabled)
      ensures toggleDisabled == old(toggleDisabled) && encrypt == old(encrypt) && location == old(location)
    {
      joinCode := value;
    }

    /** The synchronous start of `handleCreate`: refused while a creation is pending,
        otherwise the page goes busy. */
    method BeginCreate() returns (go: bool)
      requires Valid()
      modifies this
      ensures Valid()
      ensures go <==> !old(busy)
      ensures busy && encrypt == old(encrypt) && joinCode == old(joinCode) && location == old(location)
    {
      if busy {
        return false;
      }
      SetHomeBusy(true);
      go := true;
    }

    /** The rest of `handleCreate` once `POST /api/rooms` settles (`created` is the room id,
        or `None` when the request failed): navigate to the room, with the key in the
        fragment when encryption is on, and leave the busy state in `finally`. */
    method FinishCreate(created: Option<string>, rawKey: array<byte>)
      requires rawKey.Length == 32
      modifies this
      ensures Valid() && !busy
      ensures created.None? ==> location == old(location)
      ensures created.Some? ==>
        location == Some(CreateTarget(created.value, if old(encrypt) then Some(rawKey[..]) else None))
      ensures encrypt == old(encrypt) && joinCode == old(joinCode)
    {
      if created.Some? {
        var roomId := created.value;
        if encrypt {
          var k := B64urlEncode(rawKey);
          location := Some("/r/" + roomId + "#k=" + k);
        } else {
          location := Some("/r/" + roomId);
        }
      }
      SetHomeBusy(false);
    }

    /** `handleJoin`, with `hash` the current `location.hash`. */
    method Join(hash: string) returns (navigated: bool)
      modifies this
      ensures navigated <==> JoinTarget(joinCode, hash).Some?
      ensures location == if navigated then JoinTarget(joinCode, hash) else old(location)
      ensures busy == old(busy) && createDisabled == old(createDisabled) && joinDisabled == old(joinDisabled)
      ensures toggleDisabled == old(toggleDisabled) && encrypt == old(encrypt) && joinCode == old(joinCode)
    {
      var code := JoinCode(joinCode);
      if code == [] {
        return false;
      }
      location := Some("/r/" + code + hash);
      navigated := true;
    }
  }
}
