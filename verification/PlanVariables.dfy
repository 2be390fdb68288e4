/** Variables of the generated script: what the preamble sets, what each step reads and sets. */
module PlanVariables {
  import opened Decimal
  import opened Shell
  import opened Planner

  /** A stretch of a step: it sends texts and reads variables, then sets some. */
  datatype Phase = Phase(texts: seq<Text>, uses: set<Var>, defs: seq<Var>)

  /** A text can be filled in: what it refers to is known. The user's own text is searched for references
      as the rendering does. */
  ghost predicate Filled(known: set<Var>, t: Text) {
    match t
    case Fixed(_) => true
    case Ref(v) => v in known
    case Given(s) => forall n | n in Refs(s) :: exists v :: v in known && Spell(v) == n
    case _ => true
  }

  ghost predicate AllFilled(known: set<Var>, texts: seq<Text>) {
    forall k | 0 <= k < |texts| :: Filled(known, texts[k])
  }

  function Just(v: Option<Var>): set<Var> { if v.None? then {} else {v.value} }

  function Listed(v: Option<Var>): seq<Var> { if v.None? then [] else [v.value] }

  /** Every direct call reads the base address; the retry around the object-storage call captures nothing. */
  function Phases(step: Step): seq<Phase> {
    match step
    case Request(_, query, body, captures, session) =>
      [Phase(query + Texts(body), {BaseURL}, captures), Phase([], Just(session), [])]
    case Redirect(target) => [Phase([Ref(target)], {BaseURL}, [])]
    case WireHr(host, repo, _, _, _, _, _, mount) => [Phase([], {}, [host]), Phase([], {host} + Just(mount), [repo])]
    case WireProxy(host, _, _) => [Phase([], {}, [host]), Phase([], {host}, [])]
    case AddS3(_, body, session, retryHost) =>
      [Phase(Texts(body), {BaseURL} + Just(retryHost), if retryHost.None? then Listed(session) else []),
       Phase([], if retryHost.None? then Just(session) else {}, [])]
  }

  function AllPhases(steps: seq<Step>): seq<Phase> {
    if steps == [] then [] else Phases(steps[0]) + AllPhases(steps[1..])
  }

  /** The variables set before the first step. */
  function Preamble(s: Spec): set<Var> {
    {BaseURL, User, Password, ApiVersion}
    + (if s.s3.enabled then {S3AccessKey, S3SecretKey} else {})
    + (if s.exporter && s.exporterUser != "" then {ExporterPass} else {})
  }

  function Defs(phases: seq<Phase>): seq<Var> {
    if phases == [] then [] else phases[0].defs + Defs(phases[1..])
  }

  function DefsOf(steps: seq<Step>): seq<Var> { Defs(AllPhases(steps)) }

  function Set(defs: seq<Var>): set<Var> { set v | v in defs }

  /** Every variable is set before it is read. */
  ghost predicate Closed(known: set<Var>, phases: seq<Phase>)
    decreases |phases|
  {
    phases == []
    || (&& phases[0].uses <= known && AllFilled(known, phases[0].texts)
        && Closed(known + Set(phases[0].defs), phases[1..]))
  }

  ghost predicate StepsClosed(known: set<Var>, steps: seq<Step>) { Closed(known, AllPhases(steps)) }

  // ---- composition ----

  lemma {:induction false} PhasesConcat(a: seq<Step>, b: seq<Step>)
    ensures AllPhases(a + b) == AllPhases(a) + AllPhases(b)
  {
    if a == [] {
      assert a + b == b;
    } else {
      assert (a + b)[1..] == a[1..] + b;
      PhasesConcat(a[1..], b);
    }
  }

  lemma {:induction false} DefsConcat(a: seq<Phase>, b: seq<Phase>)
    ensures Defs(a + b) == Defs(a) + Defs(b)
  {
    if a == [] {
      assert a + b == b;
    } else {
      assert (a + b)[1..] == a[1..] + b;
      DefsConcat(a[1..], b);
    }
  }

  lemma {:induction false} ClosedConcat(known: set<Var>, a: seq<Phase>, b: seq<Phase>)
    ensures Closed(known, a + b) == (Closed(known, a) && Closed(known + Set(Defs(a)), b))
    decreases |a|
  {
    if a == [] {
      assert a + b == b && known + Set([]) == known;
    } else {
      var next := known + Set(a[0].defs);
      assert (a + b)[1..] == a[1..] + b;
      ClosedConcat(next, a[1..], b);
      assert next + Set(Defs(a[1..])) == known + Set(Defs(a));
    }
  }

  /** A part of the plan followed by another. */
  lemma PartThenRest(known: set<Var>, a: seq<Step>, b: seq<Step>)
    ensures StepsClosed(known, a + b) == (StepsClosed(known, a) && StepsClosed(known + Set(DefsOf(a)), b))
    ensures DefsOf(a + b) == DefsOf(a) + DefsOf(b)
  {
    PhasesConcat(a, b);
    ClosedConcat(known, AllPhases(a), AllPhases(b));
    DefsConcat(AllPhases(a), AllPhases(b));
  }

  /** A step of two phases, the second without texts. */
  lemma OneStep(known: set<Var>, step: Step)
    requires |Phases(step)| == 2 && Phases(step)[1].texts == []
    ensures var p := Phases(step); DefsOf([step]) == p[0].defs + p[1].defs
    ensures var p := Phases(step);
      StepsClosed(known, [step]) ==
      (p[0].uses <= known && AllFilled(known, p[0].texts) && p[1].uses <= known + Set(p[0].defs))
  {
    var p := Phases(step);
    assert AllPhases([step]) == p + AllPhases([]) == p;
    assert p[1..] == [p[1]] && p[1..][1..] == [];
    assert Defs([p[1]]) == p[1].defs + Defs([]) == p[1].defs;
    assert Closed(known + Set(p[0].defs), [p[1]]) == (p[1].uses <= known + Set(p[0].defs));
  }

  // ---- plain texts ----

  predicate Plain(s: string) { '$' !in s }

  /** Texts whose user-supplied parts hold no dollar sign and whose references are known. */
  predicate Ready(known: set<Var>, texts: seq<Text>) {
    forall k | 0 <= k < |texts| :: (texts[k].Given? ==> Plain(texts[k].s)) && (texts[k].Ref? ==> texts[k].v in known)
  }

  lemma ReadyIsFilled(known: set<Var>, texts: seq<Text>)
    requires Ready(known, texts)
    ensures AllFilled(known, texts)
  {
    forall k | 0 <= k < |texts| ensures Filled(known, texts[k]) {
      if texts[k].Given? {
        NoDollarNoRefs(texts[k].s);
      }
    }
  }

  /** A request whose texts are ready, and what follows it. */
  lemma NextRequest(known: set<Var>, step: Step, rest: seq<Step>)
    requires step.Request? && BaseURL in known && Ready(known, step.query) && Ready(known, Texts(step.body))
    requires step.session.None? || step.session.value in step.captures
    ensures StepsClosed(known, [step] + rest) == StepsClosed(known + Set(step.captures), rest)
    ensures DefsOf([step] + rest) == step.captures + DefsOf(rest)
  {
    ReadyIsFilled(known, step.query + Texts(step.body));
    OneStep(known, step);
    PartThenRest(known, [step], rest);
    assert step.captures + [] == step.captures;
  }

  lemma LastRequest(known: set<Var>, step: Step)
    requires step.Request? && BaseURL in known && Ready(known, step.query) && Ready(known, Texts(step.body))
    requires step.session.None? || step.session.value in step.captures
    ensures StepsClosed(known, [step]) && DefsOf([step]) == step.captures
  {
    NextRequest(known, step, []);
    assert [step] + [] == [step];
    assert step.captures + DefsOf([]) == step.captures;
  }

  // ---- names ----

  lemma NameParts(v: Var)
    ensures v.HostId? ==> Spell(v)[4..|Spell(v)| - 3] == Itoa(v.i)
    ensures v.RepoId? ==> Spell(v)[4..|Spell(v)| - 3] == Itoa(v.i)
    ensures |Spell(v)| >= 4 && Spell(v)[..4] == Stem(v)
  {
  }

  /** The first four characters of a variable's name. */
  function Stem(v: Var): string {
    match v
    case BaseURL => "Base" case User => "User" case Password => "Pass" case ApiVersion => "APIV"
    case S3AccessKey => "S3Ac" case S3SecretKey => "S3Se" case ExporterPass => "NeBa"
    case HrMount => "hrMo" case HostId(_) => "host" case RepoId(_) => "repo"
    case DefaultRepo => "defa" case HaCred => "haCr" case HaCert => "haCe" case HaSession => "ha_s"
    case S3Cred => "s3Cr" case MountServer => "moun" case S3Host => "s3Ho" case S3Session => "s3Re"
  }

  function Kind(v: Var): nat {
    match v
    case BaseURL => 0 case User => 1 case Password => 2 case ApiVersion => 3
    case S3AccessKey => 4 case S3SecretKey => 5 case ExporterPass => 6
    case HrMount => 7 case HostId(_) => 8 case RepoId(_) => 9
    case DefaultRepo => 10 case HaCred => 11 case HaCert => 12 case HaSession => 13
    case S3Cred => 14 case MountServer => 15 case S3Host => 16 case S3Session => 17
  }

  lemma StemsDiffer(v: Var, w: Var)
    requires Stem(v)[0] == Stem(w)[0] && Stem(v)[1] == Stem(w)[1] && Stem(v)[2] == Stem(w)[2] && Stem(v)[3] == Stem(w)[3]
    ensures Kind(v) == Kind(w)
  {
  }

  /** Variables have names of their own: node i's host and repository variables differ from every other
      variable because numerals determine their number. */
  lemma SpellIsInjective(v: Var, w: Var)
    ensures Spell(v) == Spell(w) ==> v == w
  {
    if Spell(v) == Spell(w) {
      NameParts(v);
      NameParts(w);
      StemsDiffer(v, w);
      if v.HostId? || v.RepoId? {
        ItoaIsInjective(v.i, w.i);
      }
    }
  }

  /** What a text renders to refers to the variable it stands for, and to nothing when it is plain. */
  lemma RenderedRefs(t: Text)
    requires t.Fixed? || t.Given? || t.Ref?
    ensures t.Ref? ==> Refs(Render(t)) == {Spell(t.v)}
    ensures !t.Ref? && Plain(t.s) ==> Refs(Render(t)) == {}
  {
    if t.Ref? {
      SpellIsWord(t.v);
      SingleRef("", Spell(t.v), 0);
      assert "" + "$" + Spell(t.v) == "$" + Spell(t.v);
    } else if Plain(t.s) {
      NoDollarNoRefs(t.s);
    }
  }

  predicate WordOnly(s: string) { forall k | 0 <= k < |s| :: IsWord(s[k]) }

  lemma SpellIsWord(v: Var)
    ensures Spell(v) != "" && WordOnly(Spell(v))
  {
    match v
    case HostId(i) =>
      ItoaRoundTrip(i);
      IndexedIsWord("host", i);
    case RepoId(i) =>
      ItoaRoundTrip(i);
      IndexedIsWord("repo", i);
    case _ => if Kind(v) < 11 { EarlierIsWord(v); } else { LaterIsWord(v); }
  }

  lemma IndexedIsWord(stem: string, i: nat)
    requires WordOnly(stem) && AllDigits(Itoa(i))
    ensures WordOnly(stem + Itoa(i) + "_id")
  {
    assert forall k | 0 <= k < |Itoa(i)| :: IsWord(Itoa(i)[k]);
    assert WordOnly("_id");
  }

  lemma EarlierIsWord(v: Var)
    requires !v.HostId? && !v.RepoId? && Kind(v) < 11
    ensures WordOnly(Spell(v))
  {
  }

  lemma LaterIsWord(v: Var)
    requires Kind(v) >= 11
    ensures WordOnly(Spell(v))
  {
  }
}
