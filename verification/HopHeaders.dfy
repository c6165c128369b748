/**
 The HTTP proxy's treatment of hop-by-hop headers: which connection persistence a message asks
 for, which headers are removed before it is passed on, and how persistence is stated again.
 */
module HopHeaders {
  import opened Common

  /** A header value: readable text, or bytes that `to_str` refuses. */
  datatype Value = Text(s: string) | Opaque

  /** Header names are kept in lower case. */
  type HeaderMap = map<string, seq<Value>>

  datatype Version = Http10 | Http11

  // ----- text

  function LowerChar(c: char): char {
    if 'A' <= c <= 'Z' then c - 'A' + 'a' else c
  }

  function Lower(s: string): (r: string)
    ensures |r| == |s|
  {
    seq(|s|, i requires 0 <= i < |s| => LowerChar(s[i]))
  }

  predicate Same(a: string, b: string) {
    Lower(a) == Lower(b)
  }

  predicate IsSpace(c: char) {
    c == ' ' || c == '\t' || c == '\n' || c == '\r'
  }

  function TrimLeft(s: string): string {
    if s != [] && IsSpace(s[0]) then TrimLeft(s[1..]) else s
  }

  function TrimRight(s: string): string {
    if s != [] && IsSpace(s[|s| - 1]) then TrimRight(s[..|s| - 1]) else s
  }

  function Trim(s: string): string {
    TrimRight(TrimLeft(s))
  }

  /** `split(',')`: the pieces between commas, at least one. */
  function Split(s: string): (parts: seq<string>)
    ensures parts != []
  {
    if s == [] then [[]]
    else
      var rest := Split(s[1..]);
      if s[0] == ',' then [[]] + rest else [[s[0]] + rest[0]] + rest[1..]
  }

  /** The trimmed pieces of a value. */
  function Tokens(s: string): seq<string> {
    Trimmed(Split(s))
  }

  function Trimmed(parts: seq<string>): (ts: seq<string>)
    ensures |ts| == |parts|
    ensures forall i :: 0 <= i < |ts| ==> ts[i] == Trim(parts[i])
  {
    seq(|parts|, i requires 0 <= i < |parts| => Trim(parts[i]))
  }

  lemma {:induction false} NothingToSplit(s: string)
    requires ',' !in s
    ensures Split(s) == [s]
  {
    if s != [] {
      NothingToSplit(s[1..]);
      assert [s[0]] + s[1..] == s;
    }
  }

  /** A word without commas or spaces is its own only token. */
  lemma WordIsItsToken(s: string)
    requires forall i :: 0 <= i < |s| ==> s[i] != ',' && !IsSpace(s[i])
    ensures Tokens(s) == [s]
  {
    NothingToSplit(s);
    assert Trim(s) == s;
  }

  /** A value that spells a given word is just that word, up to case. */
  lemma SpelledWord(s: string, word: string)
    requires Same(s, word)
    requires forall i :: 0 <= i < |word| ==> word[i] != ',' && !IsSpace(word[i])
    ensures Tokens(s) == [s]
  {
    forall i | 0 <= i < |s| ensures s[i] != ',' && !IsSpace(s[i]) {
      assert Lower(s)[i] == Lower(word)[i];
    }
    WordIsItsToken(s);
  }

  /** Capital letters become small ones and nothing else changes. */
  lemma LowerMeans(s: string, i: nat)
    requires i < |s|
    ensures 'A' <= s[i] <= 'Z' ==> Lower(s)[i] as int == s[i] as int + 32
    ensures !('A' <= s[i] <= 'Z') ==> Lower(s)[i] == s[i]
  {
  }

  predicate Blank(s: string) {
    forall i :: 0 <= i < |s| ==> s[i] in " \t\n\r"
  }

  lemma {:induction false} TrimLeftMeans(s: string) returns (before: string)
    ensures s == before + TrimLeft(s) && Blank(before)
    ensures TrimLeft(s) != [] ==> TrimLeft(s)[0] !in " \t\n\r"
  {
    before := [];
    if s != [] && IsSpace(s[0]) {
      var rest := TrimLeftMeans(s[1..]);
      before := [s[0]] + rest;
    }
  }

  lemma {:induction false} TrimRightMeans(s: string) returns (after: string)
    ensures s == TrimRight(s) + after && Blank(after)
    ensures TrimRight(s) != [] ==> TrimRight(s)[|TrimRight(s)| - 1] !in " \t\n\r"
    ensures TrimRight(s) != [] ==> TrimRight(s)[0] == s[0]
  {
    after := [];
    if s != [] && IsSpace(s[|s| - 1]) {
      var rest := TrimRightMeans(s[..|s| - 1]);
      after := rest + [s[|s| - 1]];
    }
  }

  /** Trimming takes the white space off both ends, and all of it. */
  lemma TrimMeans(s: string) returns (before: string, after: string)
    ensures s == before + Trim(s) + after && Blank(before) && Blank(after)
    ensures Trim(s) != [] ==> Trim(s)[0] !in " \t\n\r" && Trim(s)[|Trim(s)| - 1] !in " \t\n\r"
  {
    before := TrimLeftMeans(s);
    after := TrimRightMeans(TrimLeft(s));
  }

  function Joined(parts: seq<string>): string
    requires parts != []
  {
    if |parts| == 1 then parts[0] else parts[0] + "," + Joined(parts[1..])
  }

  /** Splitting undoes joining with commas, and leaves none. */
  lemma {:induction false} SplitMeans(s: string)
    ensures Joined(Split(s)) == s
    ensures forall i :: 0 <= i < |Split(s)| ==> ',' !in Split(s)[i]
  {
    if s != [] {
      SplitMeans(s[1..]);
      var rest := Split(s[1..]);
      assert Split(s)[1..] == if s[0] == ',' then rest else rest[1..];
    }
  }

  const CLOSE := "close"
  const KEEP_ALIVE := "keep-alive"

  lemma Words()
    ensures forall i :: 0 <= i < |CLOSE| ==> CLOSE[i] != ',' && !IsSpace(CLOSE[i])
    ensures forall i :: 0 <= i < |KEEP_ALIVE| ==> KEEP_ALIVE[i] != ',' && !IsSpace(KEEP_ALIVE[i])
    ensures Lower(CLOSE) == CLOSE && Lower(KEEP_ALIVE) == KEEP_ALIVE
  {
  }

  // ----- persistence

  function GetAll(h: HeaderMap, name: string): seq<Value> {
    if name in h then h[name] else []
  }

  /** The value is readable and one of its tokens spells the word. */
  ghost predicate Lists(v: Value, word: string) {
    v.Text? && exists i :: 0 <= i < |Tokens(v.s)| && Same(Tokens(v.s)[i], word)
  }

  /** The value is exactly "close". */
  predicate IsClose(v: Value) {
    v.Text? && Same(v.s, CLOSE)
  }

  /** What one value says about persistence, if anything. */
  ghost function Opinion(v: Value): Option<bool> {
    if IsClose(v) then Some(false)
    else if Lists(v, KEEP_ALIVE) then Some(true)
    else None
  }

  /** The last value with an opinion decides; without any, the default stands. */
  ghost predicate Decides(values: seq<Value>, default: bool, answer: bool) {
    || (answer == default && forall i :: 0 <= i < |values| ==> Opinion(values[i]).None?)
    || exists i :: 0 <= i < |values| && Opinion(values[i]) == Some(answer)
                   && forall j :: i < j < |values| ==> Opinion(values[j]).None?
  }

  function DefaultKeepAlive(v: Version): bool {
    v.Http11?
  }

  /** The values consulted, in order: those of Proxy-Connection if asked for, then of Connection. */
  function Consulted(h: HeaderMap, checkProxy: bool): seq<Value> {
    (if checkProxy then GetAll(h, "proxy-connection") else []) + GetAll(h, "connection")
  }

  /** The loop over the parts of one value, left at the first "keep-alive". */
  method ScanParts(s: string) returns (found: bool)
    ensures found <==> Lists(Text(s), KEEP_ALIVE)
  {
    hide Split, Trim, Lower;
    var parts := Split(s);
    found := false;
    for k := 0 to |parts|
      invariant !found
      invariant forall j :: 0 <= j < k ==> !Same(Tokens(s)[j], KEEP_ALIVE)
    {
      if Lower(Trim(parts[k])) == Lower(KEEP_ALIVE) {
        assert Same(Tokens(s)[k], KEEP_ALIVE);
        return true;
      }
    }
  }

  /** The loop over the values of one header. */
  method ScanValues(values: seq<Value>, initial: bool) returns (keepAlive: bool)
    ensures Decides(values, initial, keepAlive)
  {
    hide Lower, Lists;
    keepAlive := initial;
    for n := 0 to |values|
      invariant Decides(values[..n], initial, keepAlive)
    {
      hide Decides;
      ghost var before := keepAlive;
      match values[n] {
        case Opaque =>
          NothingListed();
        case Text(s) =>
          if Lower(s) == Lower(CLOSE) {
            keepAlive := false;
          } else {
            var found := ScanParts(s);
            if found {
              keepAlive := true;
            }
          }
      }
      DecidesSnoc(values[..n], values[n], initial, before, keepAlive);
      assert values[..n + 1] == values[..n] + [values[n]];
    }
    assert values[..|values|] == values;
  }

  lemma NothingListed()
    ensures !Lists(Opaque, KEEP_ALIVE)
  {
  }

  lemma DecidesSnoc(values: seq<Value>, v: Value, default: bool, before: bool, after: bool)
    requires Decides(values, default, before)
    requires after == if Opinion(v).Some? then Opinion(v).value else before
    ensures Decides(values + [v], default, after)
  {
    hide Opinion;
    var all := values + [v];
    assert all[|values|] == v;
    assert forall i :: 0 <= i < |values| ==> all[i] == values[i];
    if Opinion(v).None? && !(before == default && forall i :: 0 <= i < |values| ==> Opinion(values[i]).None?) {
      var i :| 0 <= i < |values| && Opinion(values[i]) == Some(before)
               && forall j :: i < j < |values| ==> Opinion(values[j]).None?;
      assert Opinion(all[i]) == Some(after);
    }
  }

  lemma DecidesAppend(a: seq<Value>, b: seq<Value>, default: bool, mid: bool, answer: bool)
    requires Decides(a, default, mid) && Decides(b, mid, answer)
    ensures Decides(a + b, default, answer)
  {
    var all := a + b;
    assert forall i :: 0 <= i < |a| ==> all[i] == a[i];
    assert forall i :: 0 <= i < |b| ==> all[|a| + i] == b[i];
    if !(answer == mid && forall i :: 0 <= i < |b| ==> Opinion(b[i]).None?) {
      var i :| 0 <= i < |b| && Opinion(b[i]) == Some(answer)
               && forall j :: i < j < |b| ==> Opinion(b[j]).None?;
      assert Opinion(all[|a| + i]) == Some(answer);
      assert forall j :: |a| + i < j < |all| ==> all[j] == b[j - |a|];
    } else if !(mid == default && forall i :: 0 <= i < |a| ==> Opinion(a[i]).None?) {
      var i :| 0 <= i < |a| && Opinion(a[i]) == Some(mid)
               && forall j :: i < j < |a| ==> Opinion(a[j]).None?;
      assert Opinion(all[i]) == Some(answer);
      assert forall j :: |a| <= j < |all| ==> all[j] == b[j - |a|];
    }
  }

  /** At most one answer is possible. */
  lemma DecisionIsUnique(values: seq<Value>, default: bool, x: bool, y: bool)
    requires Decides(values, default, x) && Decides(values, default, y)
    ensures x == y
  {
  }

  /** `check_keep_alive`. */
  method CheckKeepAlive(v: Version, h: HeaderMap, checkProxy: bool) returns (keepAlive: bool)
    ensures Decides(Consulted(h, checkProxy), DefaultKeepAlive(v), keepAlive)
  {
    var initial := match v { case Http10 => false case Http11 => true };
    keepAlive := initial;
    if checkProxy {
      keepAlive := ScanValues(GetAll(h, "proxy-connection"), keepAlive);
    } else {
      assert Decides([], initial, keepAlive);
    }
    ghost var mid := keepAlive;
    keepAlive := ScanValues(GetAll(h, "connection"), keepAlive);
    DecidesAppend(if checkProxy then GetAll(h, "proxy-connection") else [], GetAll(h, "connection"),
                  initial, mid, keepAlive);
  }

  /**
   Connection overrules Proxy-Connection: if any of its values has an opinion they decide alone;
   otherwise those of Proxy-Connection do, if they are consulted at all.
   */
  lemma ConnectionOverrules(h: HeaderMap, checkProxy: bool, default: bool, answer: bool)
    requires Decides(Consulted(h, checkProxy), default, answer)
    ensures var own, proxy := GetAll(h, "connection"), GetAll(h, "proxy-connection");
            if exists i :: 0 <= i < |own| && Opinion(own[i]).Some?
            then Decides(own, !answer, answer)
            else Decides(if checkProxy then proxy else [], default, answer)
  {
    hide Opinion, Decides;
    var own, proxy := GetAll(h, "connection"), if checkProxy then GetAll(h, "proxy-connection") else [];
    if i :| 0 <= i < |own| && Opinion(own[i]).Some? {
      DecidesSuffix(proxy, own, default, answer, i);
    } else {
      DecidesPrefix(proxy, own, default, answer);
    }
  }

  lemma DecidesSuffix(a: seq<Value>, b: seq<Value>, default: bool, answer: bool, i: nat)
    requires Decides(a + b, default, answer) && i < |b| && Opinion(b[i]).Some?
    ensures Decides(b, !answer, answer)
  {
    hide Opinion;
    var all := a + b;
    assert forall i :: 0 <= i < |b| ==> all[|a| + i] == b[i];
    assert Opinion(all[|a| + i]).Some?;
    var k :| 0 <= k < |all| && Opinion(all[k]) == Some(answer)
             && forall j :: k < j < |all| ==> Opinion(all[j]).None?;
    assert Opinion(b[k - |a|]) == Some(answer);
    forall j | k - |a| < j < |b| ensures Opinion(b[j]).None? {
      assert Opinion(all[|a| + j]).None?;
    }
  }

  lemma DecidesPrefix(a: seq<Value>, b: seq<Value>, default: bool, answer: bool)
    requires Decides(a + b, default, answer) && forall i :: 0 <= i < |b| ==> Opinion(b[i]).None?
    ensures Decides(a, default, answer)
  {
    hide Opinion;
    var all := a + b;
    assert forall i :: 0 <= i < |a| ==> all[i] == a[i];
    assert forall i :: |a| <= i < |all| ==> all[i] == b[i - |a|];
    if !(answer == default && forall i :: 0 <= i < |all| ==> Opinion(all[i]).None?) {
      var k :| 0 <= k < |all| && Opinion(all[k]) == Some(answer)
               && forall j :: k < j < |all| ==> Opinion(all[j]).None?;
      assert k < |a|;
      assert Opinion(a[k]) == Some(answer);
      forall j | k < j < |a| ensures Opinion(a[j]).None? {
        assert Opinion(all[j]).None?;
      }
    } else {
      forall j | 0 <= j < |a| ensures Opinion(a[j]).None? {
        assert Opinion(all[j]).None?;
      }
    }
  }

  // ----- removal

  const HOP_BY_HOP: seq<string> := [
    "keep-alive", "transfer-encoding", "te", "connection", "trailer", "upgrade",
    "proxy-authorization", "proxy-authenticate", "proxy-connection"]

  /** The connection options of section 6.1 of RFC 7230: every token of every readable value. */
  ghost function Options(values: seq<Value>): set<string> {
    set n, k | 0 <= n < |values| && values[n].Text? && 0 <= k < |Tokens(values[n].s)| ::
      Lower(Tokens(values[n].s)[k])
  }

  /** Names taken from one value: none if it is exactly "close", otherwise all but "keep-alive". */
  function NamedBy(v: Value): seq<string> {
    match v
    case Opaque => []
    case Text(s) => if Same(s, CLOSE) then [] else Unless(Tokens(s))
  }

  function Unless(tokens: seq<string>): seq<string> {
    if tokens == [] then []
    else (if Same(tokens[0], KEEP_ALIVE) then [] else [tokens[0]]) + Unless(tokens[1..])
  }

  function NamedByAll(values: seq<Value>): seq<string> {
    if values == [] then [] else NamedBy(values[0]) + NamedByAll(values[1..])
  }

  /** `remove` for each name, whatever its case. */
  function RemoveAll(h: HeaderMap, names: seq<string>): HeaderMap {
    if names == [] then h else RemoveAll(h - {Lower(names[0])}, names[1..])
  }

  /** The names collected from both headers. */
  function Extra(h: HeaderMap): seq<string> {
    NamedByAll(GetAll(h, "connection")) + NamedByAll(GetAll(h, "proxy-connection"))
  }

  function Cleared(h: HeaderMap): HeaderMap {
    RemoveAll(RemoveAll(h, Extra(h)), HOP_BY_HOP)
  }

  /** The header map of a message, edited in place. */
  class Headers {
    var fields: HeaderMap

    constructor (fields: HeaderMap)
      ensures this.fields == fields
    {
      this.fields := fields;
    }

    /** `HeaderMap::remove`: all values of the name go, and the first is returned. */
    method Remove(name: string) returns (found: bool)
      modifies this
      ensures found <==> Lower(name) in old(fields)
      ensures fields == old(fields) - {Lower(name)}
    {
      found := Lower(name) in fields;
      fields := fields - {Lower(name)};
    }

    method RemoveNames(names: seq<string>)
      modifies this
      ensures fields == RemoveAll(old(fields), names)
    {
      for i := 0 to |names|
        invariant RemoveAll(old(fields), names) == RemoveAll(fields, names[i..])
      {
        assert names[i..][1..] == names[i + 1..];
        ghost var target := fields - {Lower(names[i])};
        var found := Remove(names[i]);
        while found
          invariant fields == target
          decreases found
        {
          found := Remove(names[i]);
        }
      }
    }

    /** Appends the names in one value, which is not "close". */
    method CollectFrom(s: string, names: seq<string>) returns (names': seq<string>)
      ensures names' == names + Unless(Tokens(s))
    {
      hide Trim, Split;
      names' := names;
      var parts := Split(s);
      ghost var tokens := Tokens(s);
      for k := 0 to |parts|
        invariant names + Unless(tokens) == names' + Unless(tokens[k..])
      {
        assert tokens[k..][1..] == tokens[k + 1..];
        var token := Trim(parts[k]);
        if Lower(token) != Lower(KEEP_ALIVE) {
          names' := names' + [token];
        }
      }
    }

    /** Collects the names nominated by the values of one header. */
    method Collect(values: seq<Value>) returns (names: seq<string>)
      ensures names == NamedByAll(values)
    {
      hide Tokens, Unless, Lower;
      names := [];
      for n := 0 to |values|
        invariant NamedByAll(values) == names + NamedByAll(values[n..])
      {
        assert values[n..][1..] == values[n + 1..];
        ghost var before := names;
        match values[n] {
          case Opaque =>
          case Text(s) =>
            if Lower(s) != Lower(CLOSE) {
              names := CollectFrom(s, names);
            }
        }
        assert names == before + NamedBy(values[n]);
        assert before + (NamedBy(values[n]) + NamedByAll(values[n + 1..]))
            == names + NamedByAll(values[n + 1..]);
      }
    }

    /** `clear_hop_headers`. */
    method ClearHopHeaders()
      modifies this
      ensures fields == Cleared(old(fields))
    {
      var a := Collect(GetAll(fields, "connection"));
      var b := Collect(GetAll(fields, "proxy-connection"));
      RemoveNames(a + b);
      RemoveNames(HOP_BY_HOP);
    }

    /** `set_conn_keep_alive`. */
    method SetKeepAlive(v: Version, keepAlive: bool)
      modifies this
      ensures fields == WithKeepAlive(old(fields), v, keepAlive)
    {
      match v
      case Http10 =>
        if keepAlive {
          fields := fields["connection" := [Text(KEEP_ALIVE)]];
        }
      case Http11 =>
        if !keepAlive {
          fields := fields["connection" := [Text(CLOSE)]];
        }
    }
  }

  function WithKeepAlive(h: HeaderMap, v: Version, keepAlive: bool): HeaderMap {
    match v
    case Http10 => if keepAlive then h["connection" := [Text(KEEP_ALIVE)]] else h
    case Http11 => if keepAlive then h else h["connection" := [Text(CLOSE)]]
  }

  // ----- what is removed

  ghost function LowerSet(names: seq<string>): set<string> {
    set i | 0 <= i < |names| :: Lower(names[i])
  }

  lemma {:induction false} RemoveAllIsDifference(h: HeaderMap, names: seq<string>)
    ensures RemoveAll(h, names) == h - LowerSet(names)
    decreases |names|
  {
    if names != [] {
      RemoveAllIsDifference(h - {Lower(names[0])}, names[1..]);
      assert LowerSet(names) == {Lower(names[0])} + LowerSet(names[1..]) by {
        assert forall i :: 1 <= i < |names| ==> names[i] == names[1..][i - 1];
        assert Lower(names[0]) in LowerSet(names);
        forall x | x in LowerSet(names[1..]) ensures x in LowerSet(names) {
          var i :| 0 <= i < |names[1..]| && Lower(names[1..][i]) == x;
          assert Lower(names[i + 1]) == x;
        }
      }
    }
  }

  lemma {:induction false} UnlessMembers(tokens: seq<string>, x: string)
    ensures x in Unless(tokens) <==> x in tokens && !Same(x, KEEP_ALIVE)
  {
    if tokens != [] {
      UnlessMembers(tokens[1..], x);
    }
  }

  lemma {:induction false} NamedMembers(values: seq<Value>, x: string)
    ensures x in NamedByAll(values) <==> exists n :: 0 <= n < |values| && x in NamedBy(values[n])
  {
    if values != [] {
      NamedMembers(values[1..], x);
      if x in NamedByAll(values[1..]) {
        var n :| 0 <= n < |values[1..]| && x in NamedBy(values[1..][n]);
        assert x in NamedBy(values[n + 1]);
      }
      assert forall n :: 1 <= n < |values| ==> values[n] == values[1..][n - 1];
    }
  }

  /** Some value is exactly "close". */
  ghost predicate SaysOnlyClose(values: seq<Value>) {
    exists n :: 0 <= n < |values| && IsClose(values[n])
  }

  /** Some value lists "close" without being exactly that. */
  ghost predicate ListsCloseAmongOthers(values: seq<Value>) {
    exists n :: 0 <= n < |values| && !IsClose(values[n]) && Lists(values[n], CLOSE)
  }

  lemma CloseIsNamed(values: seq<Value>)
    ensures CLOSE in LowerSet(NamedByAll(values)) <==> ListsCloseAmongOthers(values)
  {
    Words();
    hide Lower, Tokens;
    var names := NamedByAll(values);
    if CLOSE in LowerSet(names) {
      var i :| 0 <= i < |names| && Lower(names[i]) == CLOSE;
      NamedMembers(values, names[i]);
      var n :| 0 <= n < |values| && names[i] in NamedBy(values[n]);
      UnlessMembers(Tokens(values[n].s), names[i]);
      assert Lists(values[n], CLOSE);
    }
    if ListsCloseAmongOthers(values) {
      var n :| 0 <= n < |values| && !IsClose(values[n]) && Lists(values[n], CLOSE);
      var tokens := Tokens(values[n].s);
      var k :| 0 <= k < |tokens| && Same(tokens[k], CLOSE);
      UnlessMembers(tokens, tokens[k]);
      NamedMembers(values, tokens[k]);
      var i :| 0 <= i < |names| && names[i] == tokens[k];
      assert Lower(names[i]) == CLOSE;
    }
  }

  /** The names taken from a header are its options, less "keep-alive" and at most less "close". */
  lemma NamesAreOptions(values: seq<Value>, name: string)
    requires Lower(name) == name
    ensures name in LowerSet(NamedByAll(values)) ==> name in Options(values)
    ensures name in Options(values) && name != KEEP_ALIVE && name != CLOSE ==>
              name in LowerSet(NamedByAll(values))
    ensures SaysOnlyClose(values) ==> CLOSE in Options(values)
    ensures CLOSE in Options(values) && CLOSE !in LowerSet(NamedByAll(values)) ==> SaysOnlyClose(values)
  {
    Words();
    var names := NamedByAll(values);
    if name in LowerSet(names) {
      var i :| 0 <= i < |names| && Lower(names[i]) == name;
      NamedMembers(values, names[i]);
      var n :| 0 <= n < |values| && names[i] in NamedBy(values[n]);
      OptionOf(values, n, names[i]);
    }
    if name in Options(values) && name != KEEP_ALIVE && name != CLOSE {
      OptionIsNamed(values, name);
    }
    if SaysOnlyClose(values) {
      var n :| 0 <= n < |values| && IsClose(values[n]);
      SpelledWord(values[n].s, CLOSE);
      assert Lower(Tokens(values[n].s)[0]) == CLOSE;
    }
    if CLOSE in Options(values) && !SaysOnlyClose(values) {
      OptionIsNamed(values, CLOSE);
    }
  }

  lemma OptionOf(values: seq<Value>, n: nat, x: string)
    requires n < |values| && x in NamedBy(values[n])
    ensures Lower(x) in Options(values)
  {
    var tokens := Tokens(values[n].s);
    UnlessMembers(tokens, x);
    var k :| 0 <= k < |tokens| && tokens[k] == x;
    assert Lower(Tokens(values[n].s)[k]) in Options(values);
  }

  lemma OptionIsNamed(values: seq<Value>, name: string)
    requires name in Options(values) && name != KEEP_ALIVE
    requires name != CLOSE || !SaysOnlyClose(values)
    ensures name in LowerSet(NamedByAll(values))
  {
    Words();
    var n, k :| 0 <= n < |values| && values[n].Text? && 0 <= k < |Tokens(values[n].s)|
                && Lower(Tokens(values[n].s)[k]) == name;
    var s := values[n].s;
    var x := Tokens(s)[k];
    if Same(s, CLOSE) {
      SpelledWord(s, CLOSE);
      assert false;
    }
    UnlessMembers(Tokens(s), x);
    NamedMembers(values, x);
    var names := NamedByAll(values);
    var i :| 0 <= i < |names| && names[i] == x;
    assert Lower(names[i]) == name;
  }

  /** All connection options of a message, from both headers. */
  ghost function AllOptions(h: HeaderMap): set<string> {
    Options(GetAll(h, "connection")) + Options(GetAll(h, "proxy-connection"))
  }

  /** What RFC 7230 asks for: the names that are always hop-by-hop and every connection option go. */
  ghost function Required(h: HeaderMap): HeaderMap {
    h - {"keep-alive", "transfer-encoding", "te", "connection", "trailer", "upgrade",
         "proxy-authorization", "proxy-authenticate", "proxy-connection"} - AllOptions(h)
  }

  predicate SmallLetters(s: string) {
    forall i :: 0 <= i < |s| ==> !('A' <= s[i] <= 'Z')
  }

  lemma SmallStays(s: string)
    requires SmallLetters(s)
    ensures Lower(s) == s
  {
  }

  lemma {:induction false} SmallLowerSet(names: seq<string>)
    requires forall i :: 0 <= i < |names| ==> SmallLetters(names[i])
    ensures LowerSet(names) == set i | 0 <= i < |names| :: names[i]
  {
    forall i | 0 <= i < |names| ensures Lower(names[i]) == names[i] {
      SmallStays(names[i]);
    }
  }

  lemma NineNames()
    ensures LowerSet(HOP_BY_HOP) ==
            {"keep-alive", "transfer-encoding", "te", "connection", "trailer", "upgrade",
             "proxy-authorization", "proxy-authenticate", "proxy-connection"}
  {
    hide LowerSet, Lower;
    var names := HOP_BY_HOP;
    SmallLowerSet(names);
    var all := set i | 0 <= i < |names| :: names[i];
    assert names[0] in all && names[1] in all && names[2] in all && names[3] in all && names[4] in all;
    assert names[5] in all && names[6] in all && names[7] in all && names[8] in all;
  }

  /** A header called "close" that is asked for only by values that say nothing else. */
  ghost predicate StrayClose(h: HeaderMap) {
    var a, b := GetAll(h, "connection"), GetAll(h, "proxy-connection");
    && CLOSE in h
    && (SaysOnlyClose(a) || SaysOnlyClose(b))
    && !ListsCloseAmongOthers(a) && !ListsCloseAmongOthers(b)
  }

  lemma FixedNames()
    ensures KEEP_ALIVE in LowerSet(HOP_BY_HOP) && "connection" in LowerSet(HOP_BY_HOP)
    ensures "proxy-connection" in LowerSet(HOP_BY_HOP)
    ensures CLOSE !in LowerSet(HOP_BY_HOP)
  {
    hide LowerSet;
    NineNames();
  }

  lemma LowerSetConcat(a: seq<string>, b: seq<string>)
    ensures LowerSet(a + b) == LowerSet(a) + LowerSet(b)
  {
    var all := a + b;
    forall x | x in LowerSet(a) ensures x in LowerSet(all) {
      var i :| 0 <= i < |a| && Lower(a[i]) == x;
      assert Lower(all[i]) == x;
    }
    forall x | x in LowerSet(b) ensures x in LowerSet(all) {
      var i :| 0 <= i < |b| && Lower(b[i]) == x;
      assert Lower(all[|a| + i]) == x;
    }
    forall x | x in LowerSet(all) ensures x in LowerSet(a) + LowerSet(b) {
      var i :| 0 <= i < |all| && Lower(all[i]) == x;
      if i < |a| {
        assert Lower(a[i]) == x;
      } else {
        assert Lower(b[i - |a|]) == x;
      }
    }
  }

  lemma ClearedIsDifference(h: HeaderMap)
    ensures Cleared(h) == h - LowerSet(Extra(h)) - LowerSet(HOP_BY_HOP)
  {
    RemoveAllIsDifference(h, Extra(h));
    RemoveAllIsDifference(RemoveAll(h, Extra(h)), HOP_BY_HOP);
  }

  ghost predicate LowerCaseNames(h: HeaderMap) {
    forall name :: name in h ==> Lower(name) == name
  }

  /**
   The code removes exactly what RFC 7230 asks for, except in one case: a header named "close"
   survives when the only values asking for its removal are exactly "close".
   */
  lemma ClearingMeetsTheRfc(h: HeaderMap)
    requires LowerCaseNames(h)
    ensures Cleared(h) == Required(h) <==> !StrayClose(h)
  {
    hide Lower, Options, NamedByAll, Same, SaysOnlyClose, ListsCloseAmongOthers, LowerSet;
    ClearedIsDifference(h);
    NineNames();
    FixedNames();
    var a, b := GetAll(h, "connection"), GetAll(h, "proxy-connection");
    LowerSetConcat(NamedByAll(a), NamedByAll(b));
    Words();
    NamesAreOptions(a, CLOSE);
    NamesAreOptions(b, CLOSE);
    CloseIsNamed(a);
    CloseIsNamed(b);
    forall name | name in h && name != CLOSE
      ensures name in Cleared(h) <==> name in Required(h)
    {
      NamesAreOptions(a, name);
      NamesAreOptions(b, name);
    }
    if !StrayClose(h) {
      assert Cleared(h) == Required(h);
    } else {
      assert CLOSE in Cleared(h) && CLOSE !in Required(h);
    }
  }

  /** The exception is real. */
  lemma StrayCloseExists()
    ensures StrayClose(map["connection" := [Text("close")], "close" := [Text("x")]])
  {
    var h: HeaderMap := map["connection" := [Text("close")], "close" := [Text("x")]];
    var v := GetAll(h, "connection");
    assert v == [Text("close")] && GetAll(h, "proxy-connection") == [];
    assert IsClose(v[0]);
  }

  // ----- persistence and the RFC

  /**
   The rules of section 6.3 of RFC 7230 in their order. A recipient `honours` the keep-alive
   option of HTTP/1.0 if it is not a proxy and wishes to.
   */
  function RfcPersists(v: Version, options: set<string>, honours: bool): bool {
    if CLOSE in options then false
    else if v.Http11? then true
    else honours && KEEP_ALIVE in options
  }

  /** A value is exactly "close" and none after it asks for keep-alive. */
  ghost predicate ClosesLast(values: seq<Value>) {
    exists i :: 0 <= i < |values| && IsClose(values[i])
                && forall j :: i < j < |values| ==> !Lists(values[j], KEEP_ALIVE)
  }

  /**
   The messages for which the code's answer is not the RFC's: "close" is listed among other
   options or overruled by a later keep-alive, or an HTTP/1.0 keep-alive should not be honoured.
   */
  ghost predicate Deviates(v: Version, values: seq<Value>, honours: bool) {
    var options := Options(values);
    if CLOSE in options
    then !ClosesLast(values) && (v.Http11? || KEEP_ALIVE in options)
    else v.Http10? && KEEP_ALIVE in options && !honours
  }

  lemma OptionsAreListed(values: seq<Value>, word: string)
    requires Lower(word) == word
    ensures word in Options(values) <==> exists n :: 0 <= n < |values| && Lists(values[n], word)
  {
    hide Lower, Tokens;
    if word in Options(values) {
      var n, k :| 0 <= n < |values| && values[n].Text? && 0 <= k < |Tokens(values[n].s)|
                  && Lower(Tokens(values[n].s)[k]) == word;
      assert Same(Tokens(values[n].s)[k], word);
      assert Lists(values[n], word);
    }
    if n :| 0 <= n < |values| && Lists(values[n], word) {
      var k :| 0 <= k < |Tokens(values[n].s)| && Same(Tokens(values[n].s)[k], word);
      assert Lower(Tokens(values[n].s)[k]) in Options(values);
    }
  }

  /** A value that is exactly "close" lists that and nothing else. */
  lemma CloseListsItself(v: Value)
    requires IsClose(v)
    ensures Lists(v, CLOSE) && !Lists(v, KEEP_ALIVE)
  {
    Words();
    SpelledWord(v.s, CLOSE);
    hide Lower, Tokens;
    assert Same(Tokens(v.s)[0], CLOSE);
  }

  lemma OpinionMeans(v: Value)
    ensures Opinion(v) == Some(true) <==> Lists(v, KEEP_ALIVE)
    ensures Opinion(v) == Some(false) <==> IsClose(v)
  {
    hide Lists, IsClose;
    if IsClose(v) {
      CloseListsItself(v);
    }
  }

  /** What the code answers, said without reference to the order of its loops. */
  lemma AnswerMeans(values: seq<Value>, default: bool, answer: bool)
    requires Decides(values, default, answer)
    ensures answer <==>
            !ClosesLast(values)
            && (default || exists n :: 0 <= n < |values| && Lists(values[n], KEEP_ALIVE))
  {
    hide Opinion, Lists, IsClose;
    forall n | 0 <= n < |values|
      ensures Opinion(values[n]) == Some(true) <==> Lists(values[n], KEEP_ALIVE)
      ensures Opinion(values[n]) == Some(false) <==> IsClose(values[n])
    {
      OpinionMeans(values[n]);
    }
  }

  /** The code's answer is the RFC's for exactly the messages that do not deviate. */
  lemma KeepAliveMeetsTheRfc(v: Version, values: seq<Value>, honours: bool, answer: bool)
    requires Decides(values, DefaultKeepAlive(v), answer)
    ensures answer == RfcPersists(v, Options(values), honours) <==> !Deviates(v, values, honours)
  {
    hide Decides, Options, Lower;
    Words();
    AnswerMeans(values, DefaultKeepAlive(v), answer);
    OptionsAreListed(values, CLOSE);
    OptionsAreListed(values, KEEP_ALIVE);
    if ClosesLast(values) {
      var i :| 0 <= i < |values| && IsClose(values[i]);
      CloseListsItself(values[i]);
    }
  }

  lemma {:induction false} SplitAtComma(a: string, b: string)
    requires ',' !in a
    ensures Split(a + "," + b) == [a] + Split(b)
  {
    var s := a + "," + b;
    if a == [] {
      assert s[1..] == b;
    } else {
      assert s[1..] == a[1..] + "," + b;
      SplitAtComma(a[1..], b);
      assert [a[0]] + a[1..] == a;
    }
  }

  lemma CloseListedFirst()
    ensures !IsClose(Text("close, te")) && Lists(Text("close, te"), CLOSE)
  {
    hide Split, Trim, Lower;
    var s := "close" + "," + " te";
    SplitAtComma("close", " te");
    NothingToSplit(CLOSE);
    WordIsItsToken(CLOSE) by { Words(); }
    assert Tokens(s)[0] == CLOSE;
    assert |Lower(s)| != |Lower(CLOSE)|;
    assert s == "close, te";
  }

  lemma KeepAliveListsItself()
    ensures !IsClose(Text(KEEP_ALIVE)) && Lists(Text(KEEP_ALIVE), KEEP_ALIVE)
  {
    Words();
    WordIsItsToken(KEEP_ALIVE);
    hide Lower, Tokens;
    assert Same(Tokens(KEEP_ALIVE)[0], KEEP_ALIVE);
    assert |Lower(KEEP_ALIVE)| != |Lower(CLOSE)|;
  }

  lemma OverlookedWhen(values: seq<Value>, n: nat)
    requires n < |values| && Lists(values[n], CLOSE) && !ClosesLast(values)
    ensures Deviates(Http11, values, true)
  {
    hide Lower, Options, ClosesLast, Lists;
    Words();
    OptionsAreListed(values, CLOSE);
  }

  /** Two messages that ask for the connection to be closed, and the code keeps it open. */
  lemma CloseIsOverlooked()
    ensures Deviates(Http11, [Text("close, te")], true)
    ensures Deviates(Http11, [Text("close"), Text("keep-alive")], true)
  {
    hide Lists, Deviates, IsClose;
    CloseListedFirst();
    OverlookedWhen([Text("close, te")], 0);
    KeepAliveListsItself();
    assert IsClose(Text(CLOSE)) by { CloseIsItself(); }
    CloseListsItself(Text(CLOSE));
    var both := [Text(CLOSE), Text(KEEP_ALIVE)];
    assert Lists(both[1], KEEP_ALIVE);
    OverlookedWhen(both, 0);
  }

  lemma CloseIsItself()
    ensures IsClose(Text(CLOSE))
  {
  }

  // ----- persistence survives the rewrite

  lemma StatedOpinion()
    ensures Opinion(Text(CLOSE)) == Some(false)
    ensures Opinion(Text(KEEP_ALIVE)) == Some(true)
    ensures NamedBy(Text(CLOSE)) == [] && NamedBy(Text(KEEP_ALIVE)) == []
  {
    Words();
    WordIsItsToken(KEEP_ALIVE);
    assert Same(Tokens(KEEP_ALIVE)[0], KEEP_ALIVE);
    assert Tokens(KEEP_ALIVE)[1..] == [];
    assert |Lower(KEEP_ALIVE)| != |Lower(CLOSE)|;
  }

  /** What a list of no or one stated value decides. */
  lemma StatedDecides(values: seq<Value>, default: bool, keepAlive: bool, answer: bool)
    requires values == [] ==> keepAlive == default
    requires values != [] ==> |values| == 1 && Opinion(values[0]) == Some(keepAlive)
    ensures Decides(values, default, answer) <==> answer == keepAlive
  {
    hide Opinion;
  }

  /** Checking a cleared message after setting its persistence gives back what was set. */
  lemma PersistenceRoundTrip(v: Version, h: HeaderMap, keepAlive: bool, checkProxy: bool, answer: bool)
    ensures var sent := Consulted(WithKeepAlive(Cleared(h), v, keepAlive), checkProxy);
            Decides(sent, DefaultKeepAlive(v), answer) <==> answer == keepAlive
  {
    hide Opinion, Cleared, Decides, NamedBy;
    ConnectionIsCleared(h);
    StatedOpinion();
    var h' := WithKeepAlive(Cleared(h), v, keepAlive);
    var values := Consulted(h', checkProxy);
    assert values == GetAll(h', "connection");
    StatedDecides(values, DefaultKeepAlive(v), keepAlive, answer);
  }

  lemma StatedMeetsTheRfc(v: Version, values: seq<Value>, keepAlive: bool)
    requires values == [] ==> keepAlive == DefaultKeepAlive(v)
    requires values != [] ==> values == [Text(if keepAlive then KEEP_ALIVE else CLOSE)]
    ensures !Deviates(v, values, true)
  {
    hide Lower, Options, Lists, IsClose;
    Words();
    KeepAliveListsItself();
    CloseIsItself();
    OptionsAreListed(values, CLOSE);
    if values != [] && !keepAlive {
      assert IsClose(values[0]);
    }
    if values != [] && keepAlive {
      KeepAliveIsNotClose();
    }
  }

  lemma KeepAliveIsNotClose()
    ensures !Lists(Text(KEEP_ALIVE), CLOSE)
  {
    Words();
    WordIsItsToken(KEEP_ALIVE);
    hide Lower, Tokens;
    assert |Lower(KEEP_ALIVE)| != |Lower(CLOSE)|;
  }

  /** A recipient that follows the RFC reads the forwarded message as the proxy meant it. */
  lemma ForwardedMeansWhatWasSet(v: Version, h: HeaderMap, keepAlive: bool, checkProxy: bool)
    ensures var sent := Consulted(WithKeepAlive(Cleared(h), v, keepAlive), checkProxy);
            RfcPersists(v, Options(sent), true) == keepAlive
  {
    hide Cleared, Decides, Deviates, Options;
    ConnectionIsCleared(h);
    var h' := WithKeepAlive(Cleared(h), v, keepAlive);
    var sent := Consulted(h', checkProxy);
    assert sent == GetAll(h', "connection");
    PersistenceRoundTrip(v, h, keepAlive, checkProxy, keepAlive);
    StatedMeetsTheRfc(v, sent, keepAlive);
    KeepAliveMeetsTheRfc(v, sent, true, keepAlive);
  }

  lemma ConnectionIsCleared(h: HeaderMap)
    ensures "connection" !in Cleared(h) && "proxy-connection" !in Cleared(h)
  {
    ClearedIsDifference(h);
    FixedNames();
  }

  /** Stating the persistence touches no other header. */
  lemma StatingKeepsOthers(h: HeaderMap, v: Version, keepAlive: bool)
    ensures WithKeepAlive(h, v, keepAlive) - {"connection"} == h - {"connection"}
    ensures (keepAlive == v.Http11?) ==> WithKeepAlive(h, v, keepAlive) == h
    ensures (keepAlive != v.Http11?) ==>
              "connection" in WithKeepAlive(h, v, keepAlive)
              && WithKeepAlive(h, v, keepAlive)["connection"] == [Text(if keepAlive then "keep-alive" else "close")]
  {
  }

  /**
   Forwarding leaves alone what is not its business: a header that is not one of the nine and is
   not nominated by the message is there afterwards iff it was before, with the same values.
   */
  lemma ForwardingKeepsOthers(h: HeaderMap, v: Version, keepAlive: bool, name: string)
    requires Lower(name) == name && name !in AllOptions(h)
    requires name !in {"keep-alive", "transfer-encoding", "te", "connection", "trailer", "upgrade",
                       "proxy-authorization", "proxy-authenticate", "proxy-connection"}
    ensures var sent := WithKeepAlive(Cleared(h), v, keepAlive);
            (name in sent <==> name in h) && (name in h ==> sent[name] == h[name])
  {
    hide Lower, Options, NamedByAll, Cleared, LowerSet;
    ClearedIsDifference(h);
    NineNames();
    var a, b := GetAll(h, "connection"), GetAll(h, "proxy-connection");
    LowerSetConcat(NamedByAll(a), NamedByAll(b));
    NamesAreOptions(a, name);
    NamesAreOptions(b, name);
  }

  lemma StripAgain(m: HeaderMap, fixed: set<string>, name: string, values: seq<Value>)
    requires m.Keys !! fixed && name in fixed
    ensures m - fixed == m && m[name := values] - fixed == m
  {
  }

  lemma StatedNamesNothing(h: HeaderMap, v: Version, keepAlive: bool)
    requires "connection" !in h && "proxy-connection" !in h
    ensures Extra(WithKeepAlive(h, v, keepAlive)) == []
  {
    StatedOpinion();
    hide NamedBy;
    var values := GetAll(WithKeepAlive(h, v, keepAlive), "connection");
    if values != [] {
      assert values[1..] == [];
    }
  }

  /** A message forwarded twice is changed no further the second time. */
  lemma ForwardingIsIdempotent(v: Version, h: HeaderMap, keepAlive: bool)
    ensures var once := WithKeepAlive(Cleared(h), v, keepAlive);
            WithKeepAlive(Cleared(once), v, keepAlive) == once
  {
    hide Cleared, LowerSet, Extra;
    var once := WithKeepAlive(Cleared(h), v, keepAlive);
    ConnectionIsCleared(h);
    StatedNamesNothing(Cleared(h), v, keepAlive);
    ClearedIsDifference(h);
    ClearedIsDifference(once);
    FixedNames();
    EmptyLowerSet();
    StripAgain(Cleared(h), LowerSet(HOP_BY_HOP), "connection", GetAll(once, "connection"));
    assert once - {} == once;
    assert Cleared(once) == Cleared(h);
  }

  lemma EmptyLowerSet()
    ensures LowerSet([]) == {}
  {
  }
}
