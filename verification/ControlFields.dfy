/** The `name=value` fields of a control line, as the device's scanner and the host's map
    parser read them. */
module ControlFields {
  import opened ByteStrings

  // The device separates tokens at spaces, the host at any ASCII white space.
  datatype Separators = Space | White

  predicate IsSeparator(seps: Separators, c: char) {
    c == ' ' || (seps.White? && 9 <= c as int <= 13)
  }

  predicate NoSeparator(seps: Separators, s: string) {
    forall i :: 0 <= i < |s| ==> !IsSeparator(seps, s[i])
  }

  function WordLength(seps: Separators, s: string): (n: nat)
    ensures n <= |s| && NoSeparator(seps, s[..n]) && (n < |s| ==> IsSeparator(seps, s[n]))
  {
    if s == "" || IsSeparator(seps, s[0]) then 0 else 1 + WordLength(seps, s[1..])
  }

  function Tokens(seps: Separators, s: string): seq<string> {
    if s == "" then []
    else if IsSeparator(seps, s[0]) then Tokens(seps, s[1..])
    else
      var n := WordLength(seps, s);
      [s[..n]] + Tokens(seps, s[n..])
  }

  // ---- The values a name is given, in line order -------------------------------------------

  predicate Names(token: string, name: string) {
    name + "=" <= token
  }

  function Values(tokens: seq<string>, name: string): seq<string> {
    if tokens == [] then []
    else
      var init := Values(tokens[..|tokens| - 1], name);
      var last := tokens[|tokens| - 1];
      if Names(last, name) then init + [last[|name| + 1..]] else init
  }

  lemma {:induction false} ValuesConcat(a: seq<string>, b: seq<string>, name: string)
    ensures Values(a + b, name) == Values(a, name) + Values(b, name)
  {
    if b == [] {
      assert a + b == a;
    } else {
      assert (a + b)[..|a + b| - 1] == a + b[..|b| - 1];
      ValuesConcat(a, b[..|b| - 1], name);
    }
  }

  function FirstNonEmpty(values: seq<string>): Option<string> {
    if values == [] then None
    else if values[0] != "" then Some(values[0])
    else FirstNonEmpty(values[1..])
  }

  lemma {:induction false} FirstNonEmptyConcat(a: seq<string>, b: seq<string>)
    ensures FirstNonEmpty(a + b) == if FirstNonEmpty(a).Some? then FirstNonEmpty(a) else FirstNonEmpty(b)
  {
    if a == [] {
      assert a + b == b;
    } else {
      assert (a + b)[1..] == a[1..] + b;
      FirstNonEmptyConcat(a[1..], b);
    }
  }

  // ---- Device: scan for the first token that starts with the field name --------------------

  function FitValue(value: string, outputSize: nat): Option<string> {
    if |value| + 1 > outputSize then None else Some(value)
  }

  // What the device returns: the first non-empty value, if it fits the output buffer.
  function DeviceField(tokens: seq<string>, name: string, outputSize: nat): Option<string> {
    match FirstNonEmpty(Values(tokens, name))
    case None => None
    case Some(value) => FitValue(value, outputSize)
  }

  // `line` is the C string, so it holds no NUL.
  method GetControlField(line: string, name: string, outputSize: nat) returns (r: Option<string>)
    ensures r == if outputSize == 0 then None else DeviceField(Tokens(Space, line), name, outputSize)
  {
    if outputSize == 0 {
      return None;
    }
    var fieldName := name + "=";
    var cursor := 0;
    ghost var done: seq<string> := [];
    while cursor < |line|
      invariant cursor <= |line|
      invariant Tokens(Space, line) == done + Tokens(Space, line[cursor..])
      invariant FirstNonEmpty(Values(done, name)) == None
    {
      var tokenStart;
      tokenStart, cursor := NextToken(line, cursor);
      if tokenStart == cursor {
        assert done + [] == done;
        return None;
      }
      var token := line[tokenStart..cursor];
      ghost var rest := Tokens(Space, line[cursor..]);
      AddToken(done, token, rest, name);
      if |token| > |fieldName| && token[..|fieldName|] == fieldName {
        ValuesConcat(done + [token], rest, name);
        FirstNonEmptyConcat(Values(done + [token], name), Values(rest, name));
        var value := token[|fieldName|..];
        return FitValue(value, outputSize);
      }
      done := done + [token];
    }
    assert line[cursor..] == "" && done + [] == done;
    return None;
  }

  // Skips spaces, then runs to the next space or the end.
  method NextToken(line: string, from: nat) returns (tokenStart: nat, cursor: nat)
    requires from < |line|
    ensures from <= tokenStart <= cursor <= |line| && from < cursor
    ensures Tokens(Space, line[from..])
            == if tokenStart == cursor then [] else [line[tokenStart..cursor]] + Tokens(Space, line[cursor..])
  {
    hide Tokens;
    tokenStart := SkipSpaces(line, from);
    cursor := tokenStart;
    while cursor < |line| && line[cursor] != ' '
      invariant tokenStart <= cursor <= |line|
      invariant forall k :: tokenStart <= k < cursor ==> line[k] != ' '
    {
      cursor := cursor + 1;
    }
    if tokenStart < cursor {
      TokenAt(line, tokenStart, cursor);
    } else {
      assert line[tokenStart..] == "";
      NoTokens();
    }
  }

  lemma NoTokens()
    ensures Tokens(Space, "") == []
  {
  }

  method SkipSpaces(line: string, from: nat) returns (cursor: nat)
    requires from < |line|
    ensures from <= cursor <= |line| && (cursor < |line| ==> line[cursor] != ' ')
    ensures Tokens(Space, line[from..]) == Tokens(Space, line[cursor..])
  {
    cursor := from;
    while cursor < |line| && line[cursor] == ' '
      invariant from <= cursor <= |line|
      invariant Tokens(Space, line[from..]) == Tokens(Space, line[cursor..])
    {
      SpaceAt(line, cursor);
      cursor := cursor + 1;
    }
  }

  lemma SpaceAt(line: string, k: nat)
    requires k < |line| && line[k] == ' '
    ensures Tokens(Space, line[k..]) == Tokens(Space, line[k + 1..])
  {
    assert line[k..][1..] == line[k + 1..];
  }

  lemma TokenAt(line: string, start: nat, end: nat)
    requires start < end <= |line| && (end < |line| ==> line[end] == ' ')
    requires forall k :: start <= k < end ==> line[k] != ' '
    ensures Tokens(Space, line[start..]) == [line[start..end]] + Tokens(Space, line[end..])
  {
    var rest, n := line[start..], end - start;
    assert rest[..n] == line[start..end] && rest[n..] == line[end..] && rest[0] == line[start];
    assert NoSeparator(Space, rest[..n]) by {
      forall i | 0 <= i < n ensures !IsSeparator(Space, rest[..n][i]) {
        assert rest[..n][i] == line[start + i];
      }
    }
    WordIs(Space, rest, n);
  }

  lemma {:induction false} WordIs(seps: Separators, s: string, n: nat)
    requires n <= |s| && NoSeparator(seps, s[..n]) && (n < |s| ==> IsSeparator(seps, s[n]))
    ensures WordLength(seps, s) == n
  {
    if n > 0 {
      assert s[..n][0] == s[0];
      var u := s[1..][..n - 1];
      forall i | 0 <= i < |u| ensures !IsSeparator(seps, u[i]) {
        assert s[..n][i + 1] == u[i];
      }
      WordIs(seps, s[1..], n - 1);
    }
  }

  lemma AddToken(done: seq<string>, token: string, rest: seq<string>, name: string)
    ensures done + ([token] + rest) == done + [token] + rest
    ensures Values(done + [token], name)
            == Values(done, name) + if Names(token, name) then [token[|name| + 1..]] else []
    ensures FirstNonEmpty(Values(done + [token], name))
            == if FirstNonEmpty(Values(done, name)).Some? then FirstNonEmpty(Values(done, name))
               else if Names(token, name) && token != name + "=" then Some(token[|name| + 1..]) else None
  {
    assert (done + [token])[..|done|] == done;
    var last := if Names(token, name) then [token[|name| + 1..]] else [];
    FirstNonEmptyConcat(Values(done, name), last);
    if Names(token, name) {
      assert last[1..] == [];
      assert token == name + "=" <==> token[|name| + 1..] == "";
    }
  }

  // ---- Host: every token with a name, the last one winning ---------------------------------

  function EqualsIndex(token: string): (i: int)
    ensures i == -1 ==> forall k :: 0 <= k < |token| ==> token[k] != '='
    ensures i != -1 ==> 0 <= i < |token| && token[i] == '=' && forall k :: 0 <= k < i ==> token[k] != '='
  {
    if token == "" then -1
    else if token[0] == '=' then 0
    else
      var i := EqualsIndex(token[1..]);
      if i == -1 then -1 else i + 1
  }

  function FieldMap(tokens: seq<string>): map<string, string> {
    if tokens == [] then map[]
    else
      var init := FieldMap(tokens[..|tokens| - 1]);
      var last := tokens[|tokens| - 1];
      var i := EqualsIndex(last);
      if i > 0 then init[last[..i] := last[i + 1..]] else init
  }

  method ParseEspnsFields(line: string) returns (fields: map<string, string>)
    ensures fields == FieldMap(Tokens(White, line))
  {
    fields := map[];
    var tokens := Tokens(White, line);
    for k := 0 to |tokens|
      invariant fields == FieldMap(tokens[..k])
    {
      var token := tokens[k];
      assert tokens[..k + 1][..k] == tokens[..k];
      var i := EqualsIndex(token);
      if i > 0 {
        fields := fields[token[..i] := token[i + 1..]];
      }
    }
    assert tokens[..|tokens|] == tokens;
  }

  // Go's map lookup: a missing name reads as the empty string.
  function HostField(tokens: seq<string>, name: string): string {
    var fields := FieldMap(tokens);
    if name in fields then fields[name] else ""
  }

  predicate FieldName(name: string) {
    name != "" && forall k :: 0 <= k < |name| ==> name[k] != '='
  }

  lemma NamesIsPrefixBeforeEquals(token: string, name: string)
    requires FieldName(name)
    ensures Names(token, name) <==> EqualsIndex(token) == |name| && token[..|name|] == name
  {
    var i := EqualsIndex(token);
    if Names(token, name) {
      var full := name + "=";
      assert forall k :: 0 <= k < |full| ==> token[k] == full[k];
      assert token[|name|] == '=' && token[..|name|] == name;
      assert forall k :: 0 <= k < |name| ==> token[k] == name[k];
    }
    if i == |name| && token[..i] == name {
      assert token[..i + 1] == name + "=";
    }
  }

  lemma FieldMapOneMore(init: seq<string>, last: string)
    ensures var i := EqualsIndex(last);
            FieldMap(init + [last]) == if i > 0 then FieldMap(init)[last[..i] := last[i + 1..]] else FieldMap(init)
  {
    assert (init + [last])[..|init|] == init;
  }

  lemma KeyIsName(token: string, name: string)
    requires FieldName(name)
    ensures var i := EqualsIndex(token);
            Names(token, name) <==> i > 0 && token[..i] == name
    ensures Names(token, name) ==> EqualsIndex(token) == |name|
  {
    NamesIsPrefixBeforeEquals(token, name);
    hide Names, EqualsIndex;
    var i := EqualsIndex(token);
    if i > 0 && token[..i] == name {
      assert |token[..i]| == i;
    }
  }

  // What one more token does to a name.
  lemma OneMoreField(init: seq<string>, last: string, name: string)
    requires FieldName(name)
    ensures HostField(init + [last], name)
            == if Names(last, name) then last[|name| + 1..] else HostField(init, name)
  {
    hide FieldName, Names, FieldMap, EqualsIndex;
    KeyIsName(last, name);
    FieldMapOneMore(init, last);
  }

  // The host keeps the last value of a name, empty or not.
  lemma {:induction false} HostTakesLast(tokens: seq<string>, name: string)
    requires FieldName(name)
    ensures var values := Values(tokens, name);
            HostField(tokens, name) == if values == [] then "" else values[|values| - 1]
  {
    if tokens != [] {
      hide FieldName, Names, HostField;
      var init, last := tokens[..|tokens| - 1], tokens[|tokens| - 1];
      HostTakesLast(init, name);
      assert tokens == init + [last];
      OneMoreField(init, last, name);
    }
  }

  // ---- The two parsers ----------------------------------------------------------------------

  predicate OnlySpaces(line: string) {
    forall i :: 0 <= i < |line| ==> IsSeparator(White, line[i]) ==> line[i] == ' '
  }

  lemma {:induction false} TokenisersAgree(line: string)
    requires OnlySpaces(line)
    ensures Tokens(Space, line) == Tokens(White, line)
    decreases |line|
  {
    if line != "" {
      if line[0] == ' ' {
        TokenisersAgree(line[1..]);
      } else {
        var n := WordLength(Space, line);
        assert NoSeparator(White, line[..n]) by {
          forall i | 0 <= i < n ensures !IsSeparator(White, line[..n][i]) {
            assert line[..n][i] == line[i];
          }
        }
        WordIs(White, line, n);
        TokenisersAgree(line[n..]);
      }
    }
  }

  // On a line whose only white space is spaces, and for a name given at most once, the device
  // returns exactly the value the host reads, provided it is non-empty and fits.
  lemma FieldParsersAgree(line: string, name: string, outputSize: nat)
    requires OnlySpaces(line) && FieldName(name)
    requires |Values(Tokens(Space, line), name)| <= 1
    ensures var host := HostField(Tokens(White, line), name);
            DeviceField(Tokens(Space, line), name, outputSize)
            == if host != "" && |host| + 1 <= outputSize then Some(host) else None
  {
    TokenisersAgree(line);
    HostTakesLast(Tokens(Space, line), name);
    SingleValue(Values(Tokens(Space, line), name));
  }

  lemma SingleValue(values: seq<string>)
    requires |values| <= 1
    ensures FirstNonEmpty(values) == if values == [] || values[0] == "" then None else Some(values[0])
  {
    if |values| == 1 {
      assert values[1..] == [];
    }
  }

  // Without that proviso the device takes the first non-empty value and the host the last one.  Whatever
  // the tokens, the device answers with the host's value, where it has room for it, exactly when there is
  // no non-empty value, when the first such value is the last one, or when neither can be answered.
  lemma ParsersAgreeIff(tokens: seq<string>, name: string, outputSize: nat)
    requires FieldName(name)
    ensures var values := Values(tokens, name);
            var first, host := FirstNonEmpty(values), HostField(tokens, name);
            var last := if values == [] then "" else values[|values| - 1];
            (DeviceField(tokens, name, outputSize) == if host == "" then None else FitValue(host, outputSize))
            <==> || first.None? || first.value == last
                 || (|first.value| >= outputSize && (last == "" || |last| >= outputSize))
  {
    HostTakesLast(tokens, name);
    AllEmpty(Values(tokens, name));
  }

  lemma {:induction false} AllEmpty(values: seq<string>)
    ensures FirstNonEmpty(values).None? ==> forall i :: 0 <= i < |values| ==> values[i] == ""
    ensures FirstNonEmpty(values).Some? ==> FirstNonEmpty(values).value != ""
  {
    if values != [] {
      AllEmpty(values[1..]);
    }
  }

  lemma DuplicateFieldWitness()
    ensures DeviceField(["mode=a", "mode=b"], "mode", 8) == Some("a")
    ensures HostField(["mode=a", "mode=b"], "mode") == "b"
  {
    var t := ["mode=a", "mode=b"];
    assert Names(t[0], "mode") && Names(t[1], "mode");
    assert t[..1] == ["mode=a"] && t[..1][..0] == [];
    assert Values(t[..1], "mode") == ["a"];
    assert Values(t, "mode") == ["a", "b"];
    HostTakesLast(t, "mode");
  }

  // ---- Order and unknown fields ---------------------------------------------------------------

  lemma {:induction false} ValuesOfPermutation(a: seq<string>, b: seq<string>, name: string)
    requires multiset(a) == multiset(b)
    ensures multiset(Values(a, name)) == multiset(Values(b, name))
    decreases |a|
  {
    if a != [] {
      var first, rest := a[0], a[1..];
      assert a == [first] + rest;
      assert first in multiset(b);
      var j :| 0 <= j < |b| && b[j] == first;
      var others := b[..j] + b[j + 1..];
      assert b == b[..j] + [first] + b[j + 1..];
      assert multiset(rest) == multiset(a) - multiset{first};
      assert multiset(others) == multiset(b) - multiset{first};
      ValuesOfPermutation(rest, others, name);
      ValuesConcat([first], rest, name);
      ValuesConcat(b[..j], b[j + 1..], name);
      ValuesConcat(b[..j] + [first], b[j + 1..], name);
      ValuesConcat(b[..j], [first], name);
    } else {
      assert |multiset(b)| == |b|;
      assert b == [];
    }
  }

  // Reordering the fields of a line changes neither result.
  lemma OrderIgnored(a: seq<string>, b: seq<string>, name: string, outputSize: nat)
    requires FieldName(name) && multiset(a) == multiset(b) && |Values(a, name)| <= 1
    ensures DeviceField(a, name, outputSize) == DeviceField(b, name, outputSize)
    ensures HostField(a, name) == HostField(b, name)
  {
    var va, vb := Values(a, name), Values(b, name);
    ValuesOfPermutation(a, b, name);
    assert |multiset(va)| == |va| && |multiset(vb)| == |vb|;
    if |va| == 1 {
      assert va[0] in multiset(vb);
      assert va == [va[0]] == vb;
    }
    HostTakesLast(a, name);
    HostTakesLast(b, name);
  }

  // A field with another name may stand anywhere without effect.
  lemma UnknownFieldIgnored(a: seq<string>, extra: string, b: seq<string>, name: string, outputSize: nat)
    requires FieldName(name) && !Names(extra, name)
    ensures DeviceField(a + [extra] + b, name, outputSize) == DeviceField(a + b, name, outputSize)
    ensures HostField(a + [extra] + b, name) == HostField(a + b, name)
  {
    ValuesConcat(a + [extra], b, name);
    ValuesConcat(a, b, name);
    AddToken(a, extra, b, name);
    HostTakesLast(a + [extra] + b, name);
    HostTakesLast(a + b, name);
  }
}
