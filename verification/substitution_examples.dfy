/** Worked examples of `parse_command` on concrete commands. Each example
    takes its command as a parameter fixed by its precondition. */
module SubstitutionExamples {
  import opened Php
  import opened Substitution

  /** `echo %NAME%`: the text before the placeholder is kept and the
      placeholder becomes the replacement of NAME. */
  lemma EchoName(pre: string, name: string, command: string, vars: map<string, string>)
    requires pre == "echo " && name == "NAME" && command == pre + "%" + name + "%"
    ensures Substitute(command, vars) == pre + Replacement(vars, name)
  {
    SimplePlaceholder(pre, name, "", vars);
    assert command == pre + "%" + name + "%" + "";
  }

  /** `%NAME%` with NAME set: the value replaces the placeholder. */
  lemma SetVariable(command: string, vars: map<string, string>)
    requires command == "echo %NAME%" && vars == map["NAME" := "world"]
    ensures Substitute(command, vars) == "echo world"
  {
    EchoName("echo ", "NAME", command, vars);
    assert Replacement(vars, "NAME") == "world";
  }

  /** `%NAME%` with NAME unset or `empty`: the name is left in place. */
  lemma UnsetVariable(command: string, vars: map<string, string>)
    requires command == "echo %NAME%" && !IsSet(vars, "NAME")
    ensures Substitute(command, vars) == "echo NAME"
  {
    EchoName("echo ", "NAME", command, vars);
  }

  /** Matches do not overlap: in `%a%b%` the '%' after `a` closes the first
      match, so `b%` is left as it is. */
  lemma NoOverlap(a: string, b: string, vars: map<string, string>)
    requires a != [] && forall i :: 0 <= i < |a| ==> a[i] != '%'
    requires b != [] && forall i :: 0 <= i < |b| ==> b[i] != '%'
    ensures Substitute("%" + a + "%" + (b + "%"), vars) == Replacement(vars, a) + (b + "%")
  {
    var post := b + "%";
    var r := Replacement(vars, a);
    assert "%" + a + "%" + post == [] + "%" + a + "%" + post;
    SimplePlaceholder([], a, post, vars);
    TrailingPercentKept(b, vars);
    assert [] + r == r;
  }

  /** Extra '%' belong to the lookup key: `%%a%%` looks up `%a%`, not `a`. */
  lemma ExtraPercentsInKey(a: string, vars: map<string, string>)
    requires a != [] && forall i :: 0 <= i < |a| ==> a[i] != '%'
    ensures Substitute("%" + ("%" + a + "%") + "%", vars) == Replacement(vars, "%" + a + "%")
  {
    var key := "%" + a + "%";
    var s := "%" + key + "%";
    var e := |a| + 4;
    DoubledMatch(a, s);
    SubstituteLeftmost(s, 0, 2, |a| + 2, e, vars);
    KeyInside(key, s, e);
    var r := Replacement(vars, key);
    assert Substitute(s[e..], vars) == [];
    assert [] + r + [] == r;
  }

  /** In `%%a%%` the whole string is the match, with two '%' on each side. */
  lemma DoubledMatch(a: string, s: string)
    requires a != [] && forall i :: 0 <= i < |a| ==> a[i] != '%'
    requires s == "%" + ("%" + a + "%") + "%"
    ensures LeftmostMatch(s, 0, 2, |a| + 2, |a| + 4)
  {
    assert forall i :: 2 <= i < |a| + 2 ==> s[i] == a[i - 2];
    assert s[0] == '%' && s[1] == '%' && s[|a| + 2] == '%' && s[|a| + 3] == '%';
  }

  /** What lies between the first and the last character of `%key%`. */
  lemma KeyInside(key: string, s: string, e: nat)
    requires s == "%" + key + "%" && e == |key| + 2
    ensures s[..0] == [] && s[0 + 1..e - 1] == key && s[e..] == []
  {
    assert s == [] + "%" + key + "%" + [];
    FivePieces([], "%", key, "%", [], 0, e);
  }
}
