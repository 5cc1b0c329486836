/** The e-mail composer: a template is filled by replacing every
    `{{KEY}}` with its value, one key after the other in the order the
    variables were given, and each send operation fills its own template
    with its own variables. Both the class `EmailService` and the older
    `email.services` module fill templates the same way; they differ in
    the variables, templates and subjects of the reset and unlock mails. */
module Email {
  import opened Text

  datatype Variable = Variable(key: string, value: string)

  /** The text a key is looked for as: `{{KEY}}`. */
  function Placeholder(key: string): (p: string)
    ensures |p| == |key| + 4
    ensures p[0] == '{' && p[1] == '{' && p[|p| - 2] == '}' && p[|p| - 1] == '}'
    ensures forall i :: 0 <= i < |key| ==> p[i + 2] == key[i]
  {
    "{{" + key + "}}"
  }

  /** `fillTemplate`: for each variable in turn, every non-overlapping
      occurrence of its placeholder in the text built so far is replaced by
      the value, literally. */
  function FillTemplate(html: string, vars: seq<Variable>): (r: string)
    decreases |vars|
  {
    if |vars| == 0 then html
    else FillTemplate(ReplaceAll(html, Placeholder(vars[0].key), vars[0].value), vars[1..])
  }

  /** The keys of a variable list, as a set. */
  function KeySet(vars: seq<Variable>): set<string> {
    set i | 0 <= i < |vars| :: vars[i].key
  }

  /** Text that neither contains `{{` nor ends in `{`: no placeholder can
      start inside it, whatever follows. */
  predicate Clean(s: string) {
    forall i :: 0 <= i < |s| && s[i] == '{' ==> i + 1 < |s| && s[i + 1] != '{'
  }

  /** A key as the templates use it: non-empty and brace-free. */
  predicate ValidKey(k: string) {
    |k| > 0 && '{' !in k && '}' !in k
  }

  /** Keys are brace-free and values clean: the variables the send
      operations pass (a URL, a year and an address) are of this kind. */
  predicate ValidVariables(vars: seq<Variable>) {
    forall i :: 0 <= i < |vars| ==> ValidKey(vars[i].key) && Clean(vars[i].value)
  }

  /** A template seen as literal text interleaved with placeholders. */
  datatype Piece = Lit(text: string) | Hole(key: string)

  function Show(p: Piece): string {
    match p
    case Lit(s) => s
    case Hole(k) => Placeholder(k)
  }

  function Render(t: seq<Piece>): (r: string)
    decreases |t|
  {
    if |t| == 0 then "" else Show(t[0]) + Render(t[1..])
  }

  predicate WellFormed(t: seq<Piece>) {
    forall i :: 0 <= i < |t| ==> if t[i].Lit? then Clean(t[i].text) else ValidKey(t[i].key)
  }

  /** The keys of the placeholders a template holds. */
  function Holes(t: seq<Piece>): set<string> {
    set i | 0 <= i < |t| && t[i].Hole? :: t[i].key
  }

  /** The template with every `k` placeholder turned into the literal `v`. */
  function Subst(t: seq<Piece>, k: string, v: string): (r: seq<Piece>)
    ensures |r| == |t|
    ensures forall i :: 0 <= i < |t| ==> r[i] == (if t[i] == Hole(k) then Lit(v) else t[i])
    decreases |t|
  {
    if |t| == 0 then []
    else [if t[0] == Hole(k) then Lit(v) else t[0]] + Subst(t[1..], k, v)
  }

  /** The template with each variable substituted in turn. */
  function SubstAll(t: seq<Piece>, vars: seq<Variable>): (r: seq<Piece>)
    decreases |vars|
  {
    if |vars| == 0 then t
    else SubstAll(Subst(t, vars[0].key, vars[0].value), vars[1..])
  }

  /** Substituting a clean value keeps a template well formed and removes
      exactly the one key from its placeholders. */
  lemma {:induction false} SubstShape(t: seq<Piece>, k: string, v: string)
    requires WellFormed(t) && Clean(v)
    ensures WellFormed(Subst(t, k, v))
    ensures Holes(Subst(t, k, v)) == Holes(t) - {k}
  {
    var r := Subst(t, k, v);
    forall x | x in Holes(t) - {k} ensures x in Holes(r) {
      var i :| 0 <= i < |t| && t[i].Hole? && t[i].key == x;
      assert r[i] == t[i];
    }
  }

  /** Substituting a list of clean variables keeps a template well formed
      and leaves exactly the placeholders whose key was not given. */
  lemma {:induction false} SubstAllShape(t: seq<Piece>, vars: seq<Variable>)
    requires WellFormed(t) && ValidVariables(vars)
    ensures WellFormed(SubstAll(t, vars))
    ensures Holes(SubstAll(t, vars)) == Holes(t) - KeySet(vars)
    decreases |vars|
  {
    if |vars| > 0 {
      SubstShape(t, vars[0].key, vars[0].value);
      assert ValidVariables(vars[1..]) by {
        forall i | 0 <= i < |vars[1..]| ensures ValidKey(vars[1..][i].key) && Clean(vars[1..][i].value) {
          assert vars[1..][i] == vars[i + 1];
        }
      }
      SubstAllShape(Subst(t, vars[0].key, vars[0].value), vars[1..]);
      assert KeySet(vars) == {vars[0].key} + KeySet(vars[1..]) by {
        forall x | x in KeySet(vars) ensures x in {vars[0].key} + KeySet(vars[1..]) {
          var i :| 0 <= i < |vars| && vars[i].key == x;
          if i > 0 { assert vars[1..][i - 1] == vars[i]; }
        }
        forall x | x in KeySet(vars[1..]) ensures x in KeySet(vars) {
          var i :| 0 <= i < |vars[1..]| && vars[1..][i].key == x;
          assert vars[i + 1] == vars[1..][i];
        }
      }
    }
  }

  /** A text does not start with `p` when it differs from `p` at some
      position `j` of `p`, or is too short. */
  lemma {:induction false} DiffersAt(u: string, p: string, j: nat)
    requires j < |p|
    requires |p| <= |u| ==> u[j] != p[j]
    ensures !StartsWith(u, p)
  {
    if |p| <= |u| {
      assert u[..|p|][j] == u[j];
    }
  }

  /** No placeholder starts inside clean text, whatever follows it. */
  lemma {:induction false} NoPlaceholderInLit(s: string, x: string, k: string)
    requires Clean(s)
    ensures forall i :: 0 <= i < |s| ==> !StartsWith((s + x)[i..], Placeholder(k))
  {
    var p := Placeholder(k);
    forall i | 0 <= i < |s| ensures !StartsWith((s + x)[i..], p) {
      var u := (s + x)[i..];
      if s[i] == '{' {
        assert u[1] == s[i + 1];
        DiffersAt(u, p, 1);
      } else {
        assert u[0] == s[i];
        DiffersAt(u, p, 0);
      }
    }
  }

  /** Two different valid keys give placeholders that differ within the
      shorter one, so one never starts the text that follows the other. */
  lemma {:induction false} PlaceholdersDiffer(k2: string, x: string, k: string)
    requires ValidKey(k) && ValidKey(k2) && k2 != k
    ensures !StartsWith(Placeholder(k2) + x, Placeholder(k))
  {
    var p := Placeholder(k);
    var q := Placeholder(k2);
    var u := q + x;
    if |k| < |k2| {
      assert u[|k| + 2] == q[|k| + 2] == k2[|k|];
      DiffersAt(u, p, |k| + 2);
    } else if |k| > |k2| {
      assert u[|k2| + 2] == q[|k2| + 2];
      assert p[|k2| + 2] == k[|k2|];
      DiffersAt(u, p, |k2| + 2);
    } else {
      var j :| 0 <= j < |k| && k[j] != k2[j];
      assert u[j + 2] == q[j + 2] == k2[j];
      DiffersAt(u, p, j + 2);
    }
  }

  /** The placeholder of one valid key never starts inside the placeholder
      of a different valid key. */
  lemma {:induction false} NoPlaceholderInOther(k2: string, x: string, k: string)
    requires ValidKey(k) && ValidKey(k2) && k2 != k
    ensures forall i :: 0 <= i < |Placeholder(k2)| ==> !StartsWith((Placeholder(k2) + x)[i..], Placeholder(k))
  {
    var p := Placeholder(k);
    var q := Placeholder(k2);
    forall i | 0 <= i < |q| ensures !StartsWith((q + x)[i..], p) {
      var u := (q + x)[i..];
      if i == 0 {
        assert u == q + x;
        PlaceholdersDiffer(k2, x, k);
      } else if i == 1 {
        assert u[1] == q[2] == k2[0];
        DiffersAt(u, p, 1);
      } else {
        assert u[0] == q[i];
        assert i < |k2| + 2 ==> q[i] == k2[i - 2];
        DiffersAt(u, p, 0);
      }
    }
  }

  /** One pass of the global replacement on a rendered template is the
      rendering of the template with that key substituted. */
  lemma {:induction false} FillOne(t: seq<Piece>, k: string, v: string)
    requires WellFormed(t) && ValidKey(k)
    ensures ReplaceAll(Render(t), Placeholder(k), v) == Render(Subst(t, k, v))
    decreases |t|
  {
    var p := Placeholder(k);
    if |t| > 0 {
      var rest := Render(t[1..]);
      assert WellFormed(t[1..]) by {
        forall i | 0 <= i < |t[1..]| ensures if t[1..][i].Lit? then Clean(t[1..][i].text) else ValidKey(t[1..][i].key) {
          assert t[1..][i] == t[i + 1];
        }
      }
      FillOne(t[1..], k, v);
      var r := Subst(t, k, v);
      assert r[1..] == Subst(t[1..], k, v);
      assert Render(r) == Show(r[0]) + Render(r[1..]);
      assert 0 < |t|;
      match t[0]
      case Lit(s) =>
        NoPlaceholderInLit(s, rest, k);
        ReplaceAllSkip(s, rest, p, v);
      case Hole(k2) =>
        if k2 == k {
          ReplaceAllHead(rest, p, v);
        } else {
          NoPlaceholderInOther(k2, rest, k);
          ReplaceAllSkip(Placeholder(k2), rest, p, v);
        }
    }
  }

  /** Filling a rendered template is rendering the substituted template,
      as long as keys are brace-free and values clean. */
  lemma {:induction false} FillRender(t: seq<Piece>, vars: seq<Variable>)
    requires WellFormed(t) && ValidVariables(vars)
    ensures FillTemplate(Render(t), vars) == Render(SubstAll(t, vars))
    decreases |vars|
  {
    if |vars| > 0 {
      var k := vars[0].key;
      var v := vars[0].value;
      FillOne(t, k, v);
      SubstShape(t, k, v);
      assert ValidVariables(vars[1..]) by {
        forall i | 0 <= i < |vars[1..]| ensures ValidKey(vars[1..][i].key) && Clean(vars[1..][i].value) {
          assert vars[1..][i] == vars[i + 1];
        }
      }
      FillRender(Subst(t, k, v), vars[1..]);
    }
  }

  lemma {:induction false} CleanConcat(a: string, b: string)
    requires Clean(a) && Clean(b)
    ensures Clean(a + b)
  {
    forall i | 0 <= i < |a + b| && (a + b)[i] == '{' ensures i + 1 < |a + b| && (a + b)[i + 1] != '{' {
      if i < |a| {
        assert a[i] == '{';
      } else {
        assert b[i - |a|] == '{';
      }
    }
  }

  /** Every placeholder piece of a template is listed among its holes. */
  lemma {:induction false} HolesListed(t: seq<Piece>)
    ensures forall i :: 0 <= i < |t| && t[i].Hole? ==> t[i].key in Holes(t)
  {
  }

  /** A template made of clean literal text only renders to clean text. */
  lemma {:induction false} RenderClean(t: seq<Piece>)
    requires WellFormed(t)
    requires forall i :: 0 <= i < |t| ==> t[i].Lit?
    ensures Clean(Render(t))
    decreases |t|
  {
    if |t| > 0 {
      assert WellFormed(t[1..]) && forall i :: 0 <= i < |t[1..]| ==> t[1..][i].Lit? by {
        forall i | 0 <= i < |t[1..]| ensures t[1..][i] == t[i + 1] { }
      }
      RenderClean(t[1..]);
      CleanConcat(t[0].text, Render(t[1..]));
    }
  }

  /** Clean text contains no placeholder of any key. */
  lemma {:induction false} CleanHasNoPlaceholder(s: string, k: string)
    requires Clean(s)
    ensures !Contains(s, Placeholder(k))
  {
    var p := Placeholder(k);
    forall i: nat | i <= |s| ensures !OccursAt(s, p, i) {
      if i + |p| <= |s| {
        var u := s[i..];
        if s[i] == '{' {
          assert u[1] == s[i + 1];
          DiffersAt(u, p, 1);
        } else {
          DiffersAt(u, p, 0);
        }
        assert u[..|p|] == s[i..i + |p|];
      }
    }
  }

  /** When every placeholder of a well-formed template is given a value and
      the values are clean, the filled text is exactly the substituted
      template and no placeholder of any key is left in it. */
  lemma {:induction false} FilledTemplateComplete(t: seq<Piece>, vars: seq<Variable>)
    requires WellFormed(t) && ValidVariables(vars)
    requires Holes(t) <= KeySet(vars)
    ensures FillTemplate(Render(t), vars) == Render(SubstAll(t, vars))
    ensures Clean(FillTemplate(Render(t), vars))
    ensures forall k :: !Contains(FillTemplate(Render(t), vars), Placeholder(k))
  {
    FillRender(t, vars);
    SubstAllShape(t, vars);
    HolesListed(SubstAll(t, vars));
    RenderClean(SubstAll(t, vars));
    forall k ensures !Contains(FillTemplate(Render(t), vars), Placeholder(k)) {
      CleanHasNoPlaceholder(FillTemplate(Render(t), vars), k);
    }
  }

  /** A placeholder whose key is not given stays in place: its key is still
      a placeholder of the template that is rendered. */
  lemma {:induction false} UngivenPlaceholdersKept(t: seq<Piece>, vars: seq<Variable>, k: string)
    requires WellFormed(t) && ValidVariables(vars)
    requires k in Holes(t) && k !in KeySet(vars)
    ensures FillTemplate(Render(t), vars) == Render(SubstAll(t, vars))
    ensures k in Holes(SubstAll(t, vars))
  {
    FillRender(t, vars);
    SubstAllShape(t, vars);
  }

  /** Text in which none of the given placeholders occurs is returned
      unchanged. */
  lemma {:induction false} FillAbsent(html: string, vars: seq<Variable>)
    requires forall i :: 0 <= i < |vars| ==> !Contains(html, Placeholder(vars[i].key))
    ensures FillTemplate(html, vars) == html
    decreases |vars|
  {
    if |vars| > 0 {
      ReplaceAllAbsent(html, Placeholder(vars[0].key), vars[0].value);
      forall i | 0 <= i < |vars[1..]| ensures !Contains(html, Placeholder(vars[1..][i].key)) {
        assert vars[1..][i] == vars[i + 1];
      }
      FillAbsent(html, vars[1..]);
    }
  }

  /** Keys are applied in order: a later key's placeholder that an earlier
      value brings in is filled too, but not the other way round. */
  lemma {:induction false} KeysAppliedInOrder()
    ensures FillTemplate("{{A}}", [Variable("A", "{{B}}"), Variable("B", "x")]) == "x"
    ensures FillTemplate("{{A}}", [Variable("B", "x"), Variable("A", "{{B}}")]) == "{{B}}"
  {
    assert Placeholder("A") == "{{A}}";
    assert Placeholder("B") == "{{B}}";
    ReplaceAllHead("", "{{A}}", "{{B}}");
    ReplaceAllHead("", "{{B}}", "x");
    assert "{{A}}" + "" == "{{A}}";
    assert "{{B}}" + "" == "{{B}}";
    assert ReplaceAll("", "{{A}}", "{{B}}") == "";
    assert ReplaceAll("", "{{B}}", "x") == "";
    var s := "{{A}}";
    ReplaceAllAbsentSmall();
  }

  /** The one text step the ordering example needs: "{{A}}" holds no "{{B}}". */
  lemma {:induction false} ReplaceAllAbsentSmall()
    ensures ReplaceAll("{{A}}", "{{B}}", "x") == "{{A}}"
  {
    var s := "{{A}}";
    assert !Contains(s, "{{B}}") by {
      forall i: nat | i <= |s| ensures !OccursAt(s, "{{B}}", i) {
        if i == 0 { assert s[2] != "{{B}}"[2]; }
      }
    }
    ReplaceAllAbsent(s, "{{B}}", "x");
  }

  /** The two implementations of the mail sender. */
  datatype Edition = Current | Legacy

  datatype Kind = Verification | PasswordReset | AccountUnlock

  /** The message handed to the mail transport. */
  datatype Message = Message(to: string, subject: string, html: string)

  function UrlKey(kind: Kind): string {
    match kind
    case Verification => "VERIFICATION_URL"
    case PasswordReset => "RESET_URL"
    case AccountUnlock => "UNLOCK_URL"
  }

  function Subject(edition: Edition, kind: Kind): string {
    match (edition, kind)
    case (_, Verification) => "Verify your account"
    case (Current, PasswordReset) => "Reset Password"
    case (Current, AccountUnlock) => "Unlock Account"
    case (Legacy, PasswordReset) => "Password Recovery Request"
    case (Legacy, AccountUnlock) => "Unlock Account Request"
  }

  /** The placeholders each built-in template holds: every template has its
      URL and the year; the greeting with the address is in all the current
      templates but only in the older verification template. */
  function TemplateKeys(edition: Edition, kind: Kind): (keys: set<string>)
    ensures UrlKey(kind) in keys && "YEAR" in keys
  {
    if edition == Current || kind == Verification then {UrlKey(kind), "YEAR", "USER_EMAIL"}
    else {UrlKey(kind), "YEAR"}
  }

  /** The variables each send operation passes, in the order it lists them. */
  function Variables(edition: Edition, kind: Kind, to: string, url: string, year: string): (vars: seq<Variable>)
    ensures |vars| >= 2 && vars[0] == Variable(UrlKey(kind), url) && vars[1] == Variable("YEAR", year)
  {
    if edition == Current || kind == Verification then
      [Variable(UrlKey(kind), url), Variable("YEAR", year), Variable("USER_EMAIL", to)]
    else [Variable(UrlKey(kind), url), Variable("YEAR", year)]
  }

  /** `send*Email(to, url)` up to the transport: the address, the subject
      and the template filled with the operation's variables. `year` is the
      current year as text, read from the clock. */
  function Compose(edition: Edition, kind: Kind, template: seq<Piece>, to: string, url: string, year: string): (m: Message)
    ensures m.to == to && m.subject == Subject(edition, kind)
  {
    Message(to, Subject(edition, kind), FillTemplate(Render(template), Variables(edition, kind, to, url, year)))
  }

  /** Each send operation supplies exactly the placeholders its template
      holds: nothing missing and nothing extra. */
  lemma {:induction false} VariablesMatchTemplate(edition: Edition, kind: Kind, to: string, url: string, year: string)
    ensures KeySet(Variables(edition, kind, to, url, year)) == TemplateKeys(edition, kind)
    ensures "USER_EMAIL" in TemplateKeys(edition, kind) <==> edition == Current || kind == Verification
  {
    var vars := Variables(edition, kind, to, url, year);
    assert vars[0].key == UrlKey(kind) && vars[1].key == "YEAR";
    if edition == Current || kind == Verification {
      assert vars[2].key == "USER_EMAIL";
    }
  }

  /** The keys the send operations use are brace-free. */
  lemma {:induction false} KeysValid(kind: Kind)
    ensures ValidKey("YEAR") && ValidKey("USER_EMAIL") && ValidKey(UrlKey(kind))
  {
    match kind
    case Verification => assert ValidKey("VERIFICATION_URL");
    case PasswordReset => assert ValidKey("RESET_URL");
    case AccountUnlock => assert ValidKey("UNLOCK_URL");
  }

  /** With clean values, the variables of every send operation are valid. */
  lemma {:induction false} VariablesValid(edition: Edition, kind: Kind, to: string, url: string, year: string)
    requires Clean(to) && Clean(url) && Clean(year)
    ensures ValidVariables(Variables(edition, kind, to, url, year))
  {
    KeysValid(kind);
    if edition == Current || kind == Verification {
      assert Variables(edition, kind, to, url, year) ==
        [Variable(UrlKey(kind), url), Variable("YEAR", year), Variable("USER_EMAIL", to)];
    } else {
      assert Variables(edition, kind, to, url, year) == [Variable(UrlKey(kind), url), Variable("YEAR", year)];
    }
  }

  /** With a clean address, URL and year, every built-in template comes out
      with its placeholders replaced by the values and none left over. */
  lemma {:induction false} ComposedMailComplete(edition: Edition, kind: Kind, template: seq<Piece>, to: string, url: string, year: string)
    requires WellFormed(template) && Holes(template) <= TemplateKeys(edition, kind)
    requires Clean(to) && Clean(url) && Clean(year)
    ensures var vars := Variables(edition, kind, to, url, year);
      Compose(edition, kind, template, to, url, year).html == Render(SubstAll(template, vars))
    ensures forall k :: !Contains(Compose(edition, kind, template, to, url, year).html, Placeholder(k))
  {
    var vars := Variables(edition, kind, to, url, year);
    VariablesMatchTemplate(edition, kind, to, url, year);
    VariablesValid(edition, kind, to, url, year);
    FilledTemplateComplete(template, vars);
  }

  /** The address reaches the body only where the template greets the user:
      for the older reset and unlock mails it is never substituted. */
  lemma {:induction false} LegacyResetOmitsAddress(kind: Kind, to: string, url: string, year: string)
    requires kind != Verification
    ensures "USER_EMAIL" !in KeySet(Variables(Legacy, kind, to, url, year))
    ensures "USER_EMAIL" in KeySet(Variables(Current, kind, to, url, year))
  {
    VariablesMatchTemplate(Legacy, kind, to, url, year);
    VariablesMatchTemplate(Current, kind, to, url, year);
  }
}
