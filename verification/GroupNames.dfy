/** Names of role groups: printed as `model:#pk:role`, parsed by splitting at colons. */
module GroupNames {

  predicate Plain(s: string) {
    ':' !in s
  }

  function GroupName(model: string, pk: string, role: string): string {
    model + ":#" + pk + ":" + role
  }

  /** Python's `split(":")`. */
  function Split(s: string): (parts: seq<string>)
    ensures |parts| > 0
  {
    if s == "" then [""]
    else
      var rest := Split(s[1..]);
      if s[0] == ':' then [""] + rest else [[s[0]] + rest[0]] + rest[1..]
  }

  function Joined(parts: seq<string>): string
    requires |parts| > 0
  {
    if |parts| == 1 then parts[0] else parts[0] + ":" + Joined(parts[1..])
  }

  predicate StartsWith(s: string, prefix: string) {
    |prefix| <= |s| && s[..|prefix|] == prefix
  }

  lemma {:induction false} SplitPlain(s: string)
    requires Plain(s)
    ensures Split(s) == [s]
  {
    if s != "" {
      assert s[0] in s && forall c | c in s[1..] :: c in s;
      SplitPlain(s[1..]);
      assert s == [s[0]] + s[1..];
    }
  }

  lemma {:induction false} SplitAtColon(a: string, b: string)
    requires Plain(a)
    ensures Split(a + ":" + b) == [a] + Split(b)
  {
    var s := a + ":" + b;
    if a == "" {
      assert s[1..] == b;
    } else {
      assert a[0] in a && forall c | c in a[1..] :: c in a;
      SplitAtColon(a[1..], b);
      assert s[1..] == a[1..] + ":" + b;
      assert a == [a[0]] + a[1..];
    }
  }

  lemma {:induction false} SplitJoins(s: string)
    ensures Joined(Split(s)) == s
    ensures forall p | p in Split(s) :: Plain(p)
  {
    if s != "" {
      var rest := Split(s[1..]);
      SplitJoins(s[1..]);
      assert s == [s[0]] + s[1..];
      if s[0] == ':' {
        assert Split(s)[1..] == rest;
      } else {
        assert Split(s)[1..] == rest[1..];
        assert Plain([s[0]] + rest[0]) by { assert rest[0] in rest; }
        if |rest| > 1 {
          assert Joined(rest) == rest[0] + ":" + Joined(rest[1..]);
          assert [s[0]] + (rest[0] + ":" + Joined(rest[1..])) == ([s[0]] + rest[0]) + ":" + Joined(rest[1..]);
        }
      }
    }
  }

  /** A name that splits into a model, a marked key and a role. */
  predicate Proper(name: string) {
    var parts := Split(name);
    |parts| == 3 && parts[1] != "" && parts[1][0] == '#'
  }

  function ModelOf(name: string): string {
    Split(name)[0]
  }

  /** `name.split(":")[-2][1:]` */
  function PkOf(name: string): string {
    var parts := Split(name);
    if |parts| >= 2 && parts[|parts| - 2] != "" then parts[|parts| - 2][1..] else ""
  }

  /** `name.split(":")[-1]` */
  function RoleOf(name: string): string {
    var parts := Split(name);
    parts[|parts| - 1]
  }

  /** Parsing undoes printing. */
  lemma ParsePrinted(model: string, pk: string, role: string)
    requires Plain(model) && Plain(pk) && Plain(role)
    ensures var name := GroupName(model, pk, role);
            Proper(name) && ModelOf(name) == model && PkOf(name) == pk && RoleOf(name) == role
  {
    var name := GroupName(model, pk, role);
    assert name == model + ":" + ("#" + pk + ":" + role);
    SplitAtColon(model, "#" + pk + ":" + role);
    SplitAtColon("#" + pk, role);
    SplitPlain(role);
    assert Split(name) == [model, "#" + pk, role];
  }

  /** Printing undoes parsing, on every proper name. */
  lemma PrintParsed(name: string)
    requires Proper(name)
    ensures name == GroupName(ModelOf(name), PkOf(name), RoleOf(name))
    ensures Plain(ModelOf(name)) && Plain(PkOf(name)) && Plain(RoleOf(name))
  {
    var parts := Split(name);
    SplitJoins(name);
    assert parts == [parts[0], parts[1], parts[2]];
    assert parts[1..] == [parts[1], parts[2]] && parts[1..][1..] == [parts[2]];
    assert Joined(parts[1..]) == parts[1] + ":" + parts[2];
    assert parts[1] == "#" + parts[1][1..];
    assert Plain(parts[1]) && forall c | c in parts[1][1..] :: c in parts[1];
    assert name == parts[0] + ":" + (parts[1] + ":" + parts[2]);
  }

  /** Printing is injective. */
  lemma PrintInjective(model: string, pk: string, role: string, model': string, pk': string, role': string)
    requires Plain(model) && Plain(pk) && Plain(role) && Plain(model') && Plain(pk') && Plain(role')
    requires GroupName(model, pk, role) == GroupName(model', pk', role')
    ensures model == model' && pk == pk' && role == role'
  {
    ParsePrinted(model, pk, role);
    ParsePrinted(model', pk', role');
  }

  /** The prefix filter of the bulk reassignment selects by model. */
  lemma PrefixSelectsModel(name: string, model: string)
    requires Plain(model) && (Proper(name) || Plain(name))
    ensures StartsWith(name, model + ":#") <==> Proper(name) && ModelOf(name) == model
  {
    var prefix := model + ":#";
    if StartsWith(name, prefix) {
      assert prefix[|model|] == ':' && name[|model|] == prefix[|model|];
      var rest := name[|prefix|..];
      assert name == model + ":" + ("#" + rest);
      SplitAtColon(model, "#" + rest);
    } else if Proper(name) {
      PrintParsed(name);
      assert ModelOf(name) == model ==> StartsWith(name, prefix);
    }
  }
}
