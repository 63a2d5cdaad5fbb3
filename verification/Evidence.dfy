/** What counts as evidence of a failure, said in terms of the recorded values themselves. */
module Evidence {
  import opened Common
  import opened JsonValues
  import opened Spans
  import opened Roles

  // ----- Texts up to white space -----

  /** The characters Python strips. */
  const WHITE: set<char> := {
    '\t', '\n', '\U{b}', '\U{c}', '\r', '\U{1c}', '\U{1d}', '\U{1e}', '\U{1f}', ' ', '\U{85}', '\U{a0}', '\U{1680}',
    '\U{2000}', '\U{2001}', '\U{2002}', '\U{2003}', '\U{2004}', '\U{2005}', '\U{2006}', '\U{2007}', '\U{2008}',
    '\U{2009}', '\U{200a}', '\U{2028}', '\U{2029}', '\U{202f}', '\U{205f}', '\U{3000}'
  }

  ghost predicate AllWhite(s: string) {
    forall c :: c in s ==> c in WHITE
  }

  /** `text` is `core` with white space around it. */
  ghost predicate Padded(text: string, core: string) {
    exists pre, post :: AllWhite(pre) && AllWhite(post) && text == pre + core + post
  }

  lemma WhiteIs(c: char)
    ensures IsSpace(c) <==> c in WHITE
  {
    var n := c as int;
    assert c in WHITE <==> 9 <= n <= 13 || 28 <= n <= 32 || n == 0x85 || n == 0xa0 || n == 0x1680
                           || 0x2000 <= n <= 0x200a || n == 0x2028 || n == 0x2029 || n == 0x202f || n == 0x205f
                           || n == 0x3000;
  }

  lemma {:induction false} StripLeftPad(pre: string, rest: string)
    requires AllWhite(pre)
    ensures StripLeft(pre + rest) == StripLeft(rest)
  {
    if pre == "" {
      assert pre + rest == rest;
    } else {
      TailOf(pre, rest);
      assert pre[0] in pre;
      WhiteIs(pre[0]);
      StripLeftPad(pre[1..], rest);
    }
  }

  lemma {:induction false} StripRightPad(rest: string, post: string)
    requires AllWhite(post)
    ensures StripRight(rest + post) == StripRight(rest)
    decreases |post|
  {
    if post == "" {
      assert rest + post == rest;
    } else {
      var k := |post| - 1;
      assert (rest + post)[..|rest| + k] == rest + post[..k] && (rest + post)[|rest| + k] == post[k];
      assert post[k] in post;
      WhiteIs(post[k]);
      StripRightPad(rest, post[..k]);
    }
  }

  lemma {:induction false} StripLeftSplits(text: string) returns (pre: string)
    ensures AllWhite(pre) && text == pre + StripLeft(text)
    ensures StripLeft(text) != "" ==> StripLeft(text)[0] !in WHITE
  {
    pre := "";
    if text != "" {
      WhiteIs(text[0]);
      if IsSpace(text[0]) {
        var rest := StripLeftSplits(text[1..]);
        pre := [text[0]] + rest;
      }
    }
  }

  lemma {:induction false} StripRightSplits(text: string) returns (post: string)
    ensures AllWhite(post) && text == StripRight(text) + post
    ensures StripRight(text) != "" ==> StripRight(text)[|StripRight(text)| - 1] !in WHITE
    ensures StripRight(text) != "" ==> StripRight(text)[0] == text[0]
    decreases |text|
  {
    post := "";
    if text != "" {
      var k := |text| - 1;
      WhiteIs(text[k]);
      if IsSpace(text[k]) {
        var rest := StripRightSplits(text[..k]);
        post := rest + [text[k]];
      }
    }
  }

  /** No white space at either end. */
  predicate Trim(core: string) {
    core != "" ==> core[0] !in WHITE && core[|core| - 1] !in WHITE
  }

  lemma StripOfPadded(pre: string, core: string, post: string)
    requires AllWhite(pre) && AllWhite(post) && Trim(core)
    ensures Strip(pre + core + post) == core
  {
    assert pre + core + post == pre + (core + post);
    StripLeftPad(pre, core + post);
    if core == "" {
      StripLeftPad(post, "");
      assert core + post == post + "";
    } else {
      WhiteIs(core[0]);
      WhiteIs(core[|core| - 1]);
      StripRightPad(core, post);
    }
  }

  /** Stripping a text leaves its one core without white space at the ends. */
  lemma StripExactly(text: string, core: string)
    ensures Strip(text) == core <==> Trim(core) && Padded(text, core)
  {
    var pre := StripLeftSplits(text);
    var post := StripRightSplits(StripLeft(text));
    assert text == pre + Strip(text) + post;
    assert Trim(Strip(text)) && Padded(text, Strip(text));
    if Trim(core) && Padded(text, core) {
      var p, q :| AllWhite(p) && AllWhite(q) && text == p + core + q;
      StripOfPadded(p, core, q);
    }
  }

  // ----- Truth and lookup -----

  const FALSY: set<Json> := {Null, Bool(false), Num(0.0), Str(""), Arr([]), Obj([])}

  lemma TruthyIs(j: Json)
    ensures Truthy(j) <==> j !in FALSY
  {}

  /** The first entry under key `k` holds `v`. */
  ghost predicate FirstUnder(fields: seq<(string, Json)>, k: string, v: Json) {
    exists i :: 0 <= i < |fields| && fields[i] == (k, v) && forall j :: 0 <= j < i ==> fields[j].0 != k
  }

  lemma {:induction false} GetIs(fields: seq<(string, Json)>, k: string, v: Json)
    ensures Get(fields, k) == Some(v) <==> FirstUnder(fields, k, v)
  {
    if fields != [] && fields[0].0 != k {
      var rest := fields[1..];
      GetIs(rest, k, v);
      if FirstUnder(rest, k, v) {
        var i :| 0 <= i < |rest| && rest[i] == (k, v) && forall j :: 0 <= j < i ==> rest[j].0 != k;
        assert fields[i + 1] == (k, v);
        forall j | 0 <= j < i + 1 ensures fields[j].0 != k { if j > 0 { assert fields[j] == rest[j - 1]; } }
      }
      if FirstUnder(fields, k, v) {
        var i :| 0 <= i < |fields| && fields[i] == (k, v) && forall j :: 0 <= j < i ==> fields[j].0 != k;
        assert rest[i - 1] == (k, v);
        forall j | 0 <= j < i - 1 ensures rest[j].0 != k { assert rest[j] == fields[j + 1]; }
      }
    }
  }

  // ----- Errors, outputs, inputs -----

  /** The error tells of a failure: a message or type in it, or anything else that counts as true. */
  ghost predicate Errs(error: Json) {
    match error
    case Obj(fields) => exists k, v :: k in {"message", "type"} && FirstUnder(fields, k, v) && v !in FALSY
    case _ => error !in FALSY
  }

  ghost predicate ReadsAs(text: string, cores: set<string>) {
    exists core :: core in cores && Padded(text, core)
  }

  /** The output holds nothing. */
  ghost predicate Void(output: Json) {
    || output in {Null, Obj([]), Arr([])}
    || (output.Str? && ReadsAs(output.s, {"", "null", "None", "{}"}))
  }

  /** The input holds nothing, or a positional argument is missing. */
  ghost predicate Starved(input: Json) {
    || input == Obj([])
    || (input.Str? && ReadsAs(input.s, {"", "null", "None"}))
    || (input.Obj? && exists args :: FirstUnder(input.fields, "args", Arr(args)) && Null in args)
  }

  ghost predicate Fails(s: Span) {
    Errs(s.error) || Void(s.output)
  }

  lemma ReadsAsIs(text: string, cores: set<string>)
    requires forall core :: core in cores ==> Trim(core)
    ensures Strip(text) in cores <==> ReadsAs(text, cores)
  {
    StripExactly(text, Strip(text));
    forall core | core in cores ensures Strip(text) == core <==> Padded(text, core) { StripExactly(text, core); }
  }

  lemma ErrsIs(s: Span)
    ensures HasError(s) <==> Errs(s.error)
  {
    TruthyIs(s.error);
    if s.error.Obj? {
      var fields := s.error.fields;
      forall k, v ensures Get(fields, k) == Some(v) <==> FirstUnder(fields, k, v) { GetIs(fields, k, v); }
      forall v ensures Truthy(v) <==> v !in FALSY { TruthyIs(v); }
      assert Get(fields, "message").Some? ==> FirstUnder(fields, "message", Get(fields, "message").value);
      assert Get(fields, "type").Some? ==> FirstUnder(fields, "type", Get(fields, "type").value);
    }
  }

  lemma VoidIs(s: Span)
    ensures NullOutput(s) || EmptyOutput(s) <==> Void(s.output)
  {
    if s.output.Str? { ReadsAsIs(s.output.s, {"", "null", "None", "{}"}); }
  }

  lemma StarvedIs(s: Span)
    ensures BadInput(s) <==> Starved(s.input)
  {
    match s.input
    case Str(text) => ReadsAsIs(text, {"", "null", "None"});
    case Obj(fields) =>
      forall v ensures Get(fields, "args") == Some(v) <==> FirstUnder(fields, "args", v) { GetIs(fields, "args", v); }
    case _ =>
  }

  /** A span is bad exactly when its error tells of a failure or its output holds nothing. */
  lemma FailsIs(s: Span)
    ensures Bad(s) <==> Fails(s)
  {
    ErrsIs(s);
    VoidIs(s);
  }

  // ----- Parents -----

  /** A parent id is followed when it is not empty and names a span of the trace. */
  lemma ParentIs(t: Table, x: Id, p: Id)
    requires x in t
    ensures Par(t, x) == Some(p) <==> t[x].parent == Some(p) && p != "" && p in t
    ensures Par(t, x) == None <==> t[x].parent in {None, Some("")} || t[x].parent.value !in t
  {}

  // ----- Roles from recorded values -----

  /** A strict descendant of `x` fails, and pass 3 counts it. */
  ghost predicate FailsBelow(t: Table, x: Id) {
    Grounded(t, x) && exists y :: y in t && Anc(t, x, y) && Fails(t[y])
  }

  /** `x` got nothing to work with, and another child of its parent produced nothing from something. */
  ghost predicate StarvedBySibling(t: Table, x: Id) {
    && x in t && Starved(t[x].input) && Par(t, x).Some?
    && exists y :: y in t && y != x && Par(t, y) == Par(t, x) && Void(t[y].output) && !Starved(t[y].input)
  }

  ghost predicate FedByFailure(t: Table, x: Id) {
    x in t && exists s :: s in t[x].sources && s in t && Fails(t[s])
  }

  /** The four roles, from the recorded values alone. */
  lemma RolesFromValues(t: Table, x: Id)
    requires x in t
    ensures RoleOf(t, x) == Clean <==> !Fails(t[x])
    ensures RoleOf(t, x) == Propagator <==> Fails(t[x]) && FailsBelow(t, x)
    ensures RoleOf(t, x) == Manifestor <==>
            Fails(t[x]) && !FailsBelow(t, x) && (StarvedBySibling(t, x) || FedByFailure(t, x))
    ensures RoleOf(t, x) == Originator <==>
            Fails(t[x]) && !FailsBelow(t, x) && !StarvedBySibling(t, x) && !FedByFailure(t, x)
  {
    forall s ensures Bad(s) <==> Fails(s) { FailsIs(s); }
    forall s: Span ensures BadInput(s) <==> Starved(s.input) { StarvedIs(s); }
    forall s: Span ensures Introduces(s) <==> Void(s.output) && !Starved(s.input) { VoidIs(s); }
    if Grounded(t, x) { RolesCharacterised(t, x); }
  }
}
