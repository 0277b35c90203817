/** Machine states seen as shapes. */
module VerifierStates {
  // A shape describes a state above the one its code was entered in; here is what each instruction other
  // than FUNCALL does to it.

  import opened Forms
  import opened Bytecode
  import opened OrderedMaps
  import opened TagOrders
  import opened Machine
  import opened Evaluator
  import opened FrameChain
  import opened Simulation
  import opened MachineInvariants
  import opened Verifier

  /** How interpret_bytes is entered: on a call's frame or the base frame, which bind no tags; live: all tags bound below. */
  ghost predicate Entered(g: Globals, st: State, live: set<Form>) {
    && Sound(g, st) && LiveTags(st, live)
    && st.frames != [] && st.frames[|st.frames| - 1].source != FromBytes
    && TagsAt(st, st.frames[|st.frames| - 1].env) == []
  }

  ghost predicate FormsFit(st0: State, st: State, forms: seq<Option<Form>>) {
    && |st.forms| == |st0.forms| + |forms|
    && st.forms[..|st0.forms|] == st0.forms
    && forall i :: 0 <= i < |forms| && forms[i].Some? ==> st.forms[|st0.forms| + i] == forms[i].value
  }

  ghost predicate FramesFit(st0: State, st: State, frames: seq<map<Form, nat>>) {
    && |st.frames| == |st0.frames| + |frames|
    && st.frames[..|st0.frames|] == st0.frames
    && st.order == st0.order
    && (forall i :: 0 <= i < |st0.frames| ==> TagsAt(st, st0.frames[i].env) == TagsAt(st0, st0.frames[i].env))
    && forall i: nat :: i < |frames| ==> FrameFits(st, |st0.frames| + i, frames[i])
  }

  ghost predicate FrameFits(st: State, k: nat, tags: map<Form, nat>) {
    k < |st.frames| && st.frames[k].source == FromBytes && HoldsTags(st.order, TagsAt(st, st.frames[k].env), tags)
  }

  /** The state has the shape sh above st0. */
  ghost predicate Fits(g: Globals, st0: State, st: State, sh: Shape) {
    Sound(g, st) && FormsFit(st0, st, sh.forms) && FramesFit(st0, st, sh.frames)
  }

  // ---- one instruction other than FUNCALL and GO

  lemma SameFramesFit(st0: State, st: State, st': State, frames: seq<map<Form, nat>>)
    requires FramesFit(st0, st, frames) && st'.frames == st.frames && st'.tags == st.tags && st'.order == st.order
    ensures FramesFit(st0, st', frames)
  {
  }

  lemma DropForms(st0: State, st: State, st': State, forms: seq<Option<Form>>, n: nat)
    requires FormsFit(st0, st, forms) && n <= |forms| && st'.forms == st.forms[..|st.forms| - n]
    ensures FormsFit(st0, st', forms[..|forms| - n])
  {
  }

  lemma AddForm(st0: State, st: State, st': State, forms: seq<Option<Form>>, f: Option<Form>, v: Form)
    requires FormsFit(st0, st, forms) && st'.forms == st.forms + [v] && (f.Some? ==> f.value == v)
    ensures FormsFit(st0, st', forms + [f])
  {
    assert st'.forms[..|st0.forms|] == st.forms[..|st0.forms|];
  }

  lemma ExecForms(st0: State, st: State, sh: Shape, b: Byte, live: set<Form>)
    requires FormsFit(st0, st, sh.forms) && st.frames != [] && !b.Funcall? && !b.GoReturn?
    requires Abstract(sh, b, live).Some? && Exec(st, b).Next?
    ensures FormsFit(st0, Exec(st, b).st, Abstract(sh, b, live).value.forms)
  {
    hide FormsFit, SymbolValue, SymbolFunction, BindValueIn, GoodTags, PushEnv, PopEnv, CanPopEnv;
    KeptForms(st);
    var st' := Exec(st, b).st;
    var n := |st.forms|;
    FormsCount(st0, st, sh.forms);
    match b {
      case Push(f) => AddForm(st0, st, st', sh.forms, Some(f), f);
      case Pop => DropForms(st0, st, st', sh.forms, 1);
      case RetForm => DropForms(st0, st, st', sh.forms, 1);
      case BindTag(_) => DropForms(st0, st, st', sh.forms, 1);
      case BindValue => ReplaceForms(st0, st, st', sh.forms, 2, st'.forms[n - 2]);
      case LookupSymbol => ReplaceForms(st0, st, st', sh.forms, 1, st'.forms[n - 1]);
      case LookupFunction => ReplaceForms(st0, st, st', sh.forms, 1, st'.forms[n - 1]);
      case _ => SameForms(st0, st, st', sh.forms);
    }
  }

  lemma KeptForms(st: State)
    ensures st.frames != [] ==> PushEnv(st, FromBytes).forms == st.forms
    ensures CanPopEnv(st) ==> PopEnv(st).forms == st.forms
  {
  }

  lemma SameForms(st0: State, st: State, st': State, forms: seq<Option<Form>>)
    requires FormsFit(st0, st, forms) && st'.forms == st.forms
    ensures FormsFit(st0, st', forms)
  {
  }

  lemma FormsCount(st0: State, st: State, forms: seq<Option<Form>>)
    requires FormsFit(st0, st, forms)
    ensures |st.forms| == |st0.forms| + |forms|
  {
  }

  lemma ReplaceForms(st0: State, st: State, st': State, forms: seq<Option<Form>>, n: nat, v: Form)
    requires FormsFit(st0, st, forms) && n <= |forms| && st'.forms == st.forms[..|st.forms| - n] + [v]
    ensures FormsFit(st0, st', forms[..|forms| - n] + [None])
  {
    var mid := st.(forms := st.forms[..|st.forms| - n]);
    DropForms(st0, st, mid, forms, n);
    AddForm(st0, mid, st', forms[..|forms| - n], None, v);
  }

  /** Frames have distinct environments, all in the heap. */
  lemma FrameEnvs(g: Globals, st: State)
    requires Sound(g, st)
    ensures forall i, j :: 0 <= i < j < |st.frames| ==> st.frames[i].env < st.frames[j].env
    ensures forall i :: 0 <= i < |st.frames| ==> st.frames[i].env < |st.envs|
    ensures forall id :: id in st.tags ==> id < |st.envs|
    ensures |st.frames| == |st.rets| > 0
  {
    hide GlobalsMatch, BoundOnce;
    FramesInHeap(g, st);
    FramesDistinct(st.envs, st.packages[g.home], g.home, st.frames);
  }

  lemma PushFrameFits(g: Globals, st0: State, st: State, frames: seq<map<Form, nat>>)
    requires Sound(g, st) && FramesFit(st0, st, frames)
    ensures st.frames != [] && FramesFit(st0, PushEnv(st, FromBytes), frames + [map[]])
  {
    hide Sound;
    FrameEnvs(g, st);
    var st' := PushEnv(st, FromBytes);
    assert st'.frames[..|st0.frames|] == st.frames[..|st0.frames|];
    var frames' := frames + [map[]];
    forall i: nat | i < |frames'| ensures FrameFits(st', |st0.frames| + i, frames'[i]) {
      if i < |frames| { assert FrameFits(st, |st0.frames| + i, frames[i]); }
    }
  }

  lemma PopFrameFits(st0: State, st: State, frames: seq<map<Form, nat>>)
    requires FramesFit(st0, st, frames) && frames != [] && CanPopEnv(st)
    ensures FramesFit(st0, PopEnv(st), frames[..|frames| - 1])
  {
    var st' := PopEnv(st);
    assert st'.frames[..|st0.frames|] == st.frames[..|st0.frames|];
  }

  lemma BindTagFits(g: Globals, st0: State, st: State, st': State, frames: seq<map<Form, nat>>, tag: Form, index: nat)
    requires Sound(g, st) && FramesFit(st0, st, frames) && frames != [] && st'.frames == st.frames && st.frames != []
    requires st'.order == st.order && GoodTags(frames[|frames| - 1].Keys + {tag})
    requires var env := st.frames[|st.frames| - 1].env; st'.tags == st.tags[env := Inserted(st.order, TagsAt(st, env), tag, index)]
    ensures var bound: map<Form, nat> := frames[|frames| - 1][tag := index];
      FramesFit(st0, st', frames[|frames| - 1 := bound])
  {
    hide Sound, HoldsTags, Inserted, GoodTags;
    FrameEnvs(g, st);
    OrderOfSound(g, st);
    var n := |st.frames|;
    var bound: map<Form, nat> := frames[|frames| - 1][tag := index];
    var frames' := frames[|frames| - 1 := bound];
    forall i | 0 <= i < n - 1 ensures TagsAt(st', st.frames[i].env) == TagsAt(st, st.frames[i].env) { }
    forall i: nat | i < |frames'| ensures FrameFits(st', |st0.frames| + i, frames'[i]) {
      assert FrameFits(st, |st0.frames| + i, frames[i]);
      if i == |frames| - 1 {
        TagInserted(st.order, TagsAt(st, st.frames[n - 1].env), frames[i], tag, index);
      }
    }
    forall i | 0 <= i < |st0.frames| ensures TagsAt(st', st0.frames[i].env) == TagsAt(st0, st0.frames[i].env) {
      assert st.frames[..|st0.frames|][i] == st.frames[i];
    }
  }

  lemma OrderOfSound(g: Globals, st: State)
    requires Sound(g, st)
    ensures OrdersTags(st.order)
  {
  }

  lemma ExecFrames(g: Globals, st0: State, st: State, sh: Shape, b: Byte, live: set<Form>)
    requires Sound(g, st) && FormsFit(st0, st, sh.forms) && FramesFit(st0, st, sh.frames)
    requires !b.Funcall? && !b.GoReturn? && Abstract(sh, b, live).Some? && Exec(st, b).Next?
    ensures FramesFit(st0, Exec(st, b).st, Abstract(sh, b, live).value.frames)
  {
    hide FramesFit, FormsFit, Sound, SymbolValue, SymbolFunction, BindValueIn, KnownTop, GoodTags, Inserted;
    var st' := Exec(st, b).st;
    match b {
      case PushLexicalEnv => PushFrameFits(g, st0, st, sh.frames);
      case PopLexicalEnv => PopFrameFits(st0, st, sh.frames);
      case BindTag(index) =>
        TopKnown(st0, st, sh.forms);
        BindTagFits(g, st0, st, st', sh.frames, st.forms[|st.forms| - 1], index);
      case _ => SameFramesFit(st0, st, st', sh.frames);
    }
  }

  lemma TopKnown(st0: State, st: State, forms: seq<Option<Form>>)
    requires FormsFit(st0, st, forms) && forms != []
    ensures st.forms != []
    ensures forms[|forms| - 1].Some? ==> st.forms[|st.forms| - 1] == forms[|forms| - 1].value
  {
    assert st.forms[|st0.forms| + (|forms| - 1)] == st.forms[|st.forms| - 1];
  }

  lemma FramesCount(st0: State, st: State, frames: seq<map<Form, nat>>)
    requires FramesFit(st0, st, frames)
    ensures |st.frames| == |st0.frames| + |frames|
  {
  }

  lemma ExecFits(g: Globals, st0: State, st: State, sh: Shape, b: Byte, live: set<Form>)
    requires st0.frames != [] && Fits(g, st0, st, sh) && !b.Funcall? && !b.GoReturn? && Abstract(sh, b, live).Some?
    ensures var r := Exec(st, b);
      (r.Next? || r.Error?) && (r.Next? ==> Fits(g, st0, r.st, Abstract(sh, b, live).value))
  {
    hide FramesFit, FormsFit, Sound, SymbolValue, SymbolFunction, BindValueIn, KnownTop;
    FormsCount(st0, st, sh.forms);
    FramesCount(st0, st, sh.frames);
    SoundOk(g, st);
    ExecSound(g, st, b);
    if Exec(st, b).Next? {
      ExecForms(st0, st, sh, b, live);
      ExecFrames(g, st0, st, sh, b, live);
    }
  }

  // ---- GO

  /** All tags valid in a state of shape sh: those of st0 and those of the shape's frames. */
  lemma ValidTagIs(st0: State, st: State, frames: seq<map<Form, nat>>, tag: Form)
    requires FramesFit(st0, st, frames) && OrdersTags(st.order)
    ensures ValidTag(st, tag) <==> ValidTag(st0, tag) || exists i :: 0 <= i < |frames| && tag in frames[i]
  {
    hide HoldsTags, OrdersTags, Found;
    forall i | 0 <= i < |st0.frames|
      ensures st.frames[i] == st0.frames[i] && (Binds(st, st.frames[i].env, tag) <==> Binds(st0, st0.frames[i].env, tag))
    {
      assert st.frames[..|st0.frames|][i] == st.frames[i];
      assert TagsAt(st, st0.frames[i].env) == TagsAt(st0, st0.frames[i].env);
    }
    forall i: nat | i < |frames|
      ensures |st0.frames| + i < |st.frames| && (Binds(st, st.frames[|st0.frames| + i].env, tag) <==> tag in frames[i])
    {
      assert FrameFits(st, |st0.frames| + i, frames[i]);
      TagLookup(st.order, TagsAt(st, st.frames[|st0.frames| + i].env), frames[i], tag);
    }
    if ValidTag(st, tag) {
      FramesCount(st0, st, frames);
      var k :| 0 <= k < |st.frames| && Binds(st, st.frames[k].env, tag);
      if k < |st0.frames| {
        assert Binds(st0, st0.frames[k].env, tag);
      } else {
        assert tag in frames[k - |st0.frames|];
      }
    }
    if ValidTag(st0, tag) {
      FramesCount(st0, st, frames);
      var k :| 0 <= k < |st0.frames| && Binds(st0, st0.frames[k].env, tag);
      assert Binds(st, st.frames[k].env, tag);
    }
  }

  /** The innermost frame that binds the tag is the decisive one. */
  lemma ResolveDecides(st0: State, st: State, frames: seq<map<Form, nat>>, tag: Form, j: nat, k: nat)
    requires FramesFit(st0, st, frames) && j < |frames| && tag in frames[j] && (forall i :: j < i < |frames| ==> tag !in frames[i])
    requires Decisive(st, tag, k) && OrdersTags(st.order)
    ensures k == |st0.frames| + j && TagIndex(st, st.frames[k].env, tag) == frames[j][tag] && Binds(st, st.frames[k].env, tag)
  {
    hide HoldsTags, OrdersTags, Found, Looked;
    var at := |st0.frames| + j;
    assert FrameFits(st, at, frames[j]);
    TagLookup(st.order, TagsAt(st, st.frames[at].env), frames[j], tag);
    assert Binds(st, st.frames[at].env, tag);
    forall m | at < m < |st.frames|
      ensures st.frames[m].source == FromBytes && !Binds(st, st.frames[m].env, tag)
    {
      assert FrameFits(st, |st0.frames| + (m - |st0.frames|), frames[m - |st0.frames|]);
      TagLookup(st.order, TagsAt(st, st.frames[m].env), frames[m - |st0.frames|], tag);
    }
  }

  lemma UnwoundFits(st0: State, st: State, sh: Shape, j: nat)
    requires FormsFit(st0, st, sh.forms) && FramesFit(st0, st, sh.frames) && j < |sh.frames| && |st.rets| == |st.frames|
    ensures var st' := Unwound(st, |st0.frames| + j);
      FormsFit(st0, st', sh.forms) && FramesFit(st0, st', sh.frames[..j + 1])
  {
    var st' := Unwound(st, |st0.frames| + j);
    assert st'.frames[..|st0.frames|] == st.frames[..|st0.frames|];
    var kept := sh.frames[..j + 1];
    forall i: nat | i < |kept| ensures FrameFits(st', |st0.frames| + i, kept[i]) {
      assert FrameFits(st, |st0.frames| + i, sh.frames[i]);
    }
  }

  /** A GO that fits and is executed resumes in this code, at an instruction of the right shape. */
  lemma GoStep(g: Globals, st0: State, st: State, sh: Shape, code: seq<Byte>, tag: Form, live: set<Form>)
    requires Entered(g, st0, live) && Fits(g, st0, st, sh) && GoFits(code, sh, tag, live) && ValidTag(st, tag)
    ensures var d := HandleGo(st, tag);
      && d.Resume? && d.index <= |code|
      && ShapeAt(code, d.index, live).Some? && Fits(g, st0, d.st, ShapeAt(code, d.index, live).value)
  {
    hide FramesFit, FormsFit, Sound, ShapeAt, Resolve, TagsIn, HandleGo, Decisive, Binds, Unwound, ValidTag;
    SoundOk(g, st);
    OrderOfSound(g, st);
    ValidTagIs(st0, st, sh.frames, tag);
    ResolveFacts(sh.frames, tag);
    var j := Resolve(sh.frames, tag).value;
    var k := GoDecides(st, tag);
    ResolveDecides(st0, st, sh.frames, tag, j, k);
    UnwoundFits(st0, st, sh, j);
    HandleGoSound(g, st, tag);
    ShapeInCode(code, sh.frames[j][tag], live);
  }

  lemma ShapeInCode(code: seq<Byte>, pc: nat, live: set<Form>)
    requires ShapeAt(code, pc, live).Some?
    ensures pc <= |code|
  {
  }
}
