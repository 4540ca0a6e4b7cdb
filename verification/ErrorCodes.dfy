/** Error codes and structured attributes carried by wrapped errors (lib/errors): a code is attached
    by joining its sentinel to an error, and read back by testing for the sentinels in order. */
module ErrorCodes {
  import opened Machine

  /** The codes with a sentinel: Unspecified (0) to PendingUpgradeExists (19). */
  const CODES: nat := 20

  type Code = c: nat | c < 20

  const UNSPECIFIED: Code := 0

  /** An error value: a code's sentinel, any other error without a cause, an error with a message
      and a cause, a join, or a structured error with attributes. */
  datatype Error<A> =
    | Sentinel(code: Code)
    | Plain(id: nat)
    | WithMessage(msg: string, cause: Error<A>)
    | Joined(errs: seq<Error<A>>)
    | Structured(err: Error<A>, attrs: seq<A>)

  /** errors.Is(err, target) for the sentinel of a code.  A structured error compares itself only
      with structured targets, so here it just passes the question on to its cause. */
  predicate IsCode<A>(e: Error<A>, c: Code) {
    match e
    case Sentinel(code) => code == c
    case Plain(_) => false
    case WithMessage(_, cause) => IsCode(cause, c)
    case Joined(errs) => exists i :: 0 <= i < |errs| && IsCode(errs[i], c)
    case Structured(err, _) => IsCode(err, c)
  }

  /** errors.As(err, *structured): the attributes of the first structured error, depth first. */
  function FirstStructured<A>(e: Error<A>): Option<seq<A>>
    decreases e, 1
  {
    match e
    case Sentinel(_) => None
    case Plain(_) => None
    case WithMessage(_, cause) => FirstStructured(cause)
    case Joined(errs) => FirstStructuredOf(errs)
    case Structured(_, attrs) => Some(attrs)
  }

  function FirstStructuredOf<A>(errs: seq<Error<A>>): Option<seq<A>>
    decreases errs, 0
  {
    if errs == [] then None
    else if FirstStructured(errs[0]).Some? then FirstStructured(errs[0])
    else FirstStructuredOf(errs[1..])
  }

  function New<A>(id: nat, attrs: seq<A>): Error<A> {
    Structured(Plain(id), attrs)
  }

  /** Wrap; None is Go's nil error. */
  function Wrap<A>(e: Option<Error<A>>, msg: string, attrs: seq<A>): Option<Error<A>> {
    match e
    case None => None
    case Some(err) =>
      var inner := FirstStructured(err);
      Some(Structured(WithMessage(msg, err), if inner.Some? then attrs + inner.value else attrs))
  }

  /** A code without a sentinel counts as unspecified, and a nil error adds nothing to the join. */
  function WrapErrWithCode<A>(code: nat, e: Option<Error<A>>): Option<Error<A>> {
    var c: Code := if code < CODES then code else UNSPECIFIED;
    Some(Joined([Sentinel(c)] + if e.Some? then [e.value] else []))
  }

  /** The cases of the switch from code c on. */
  function SwitchFrom<A>(e: Error<A>, c: Code): Code
    decreases CODES - c
  {
    if IsCode(e, c) then c else if c + 1 < CODES then SwitchFrom(e, c + 1) else UNSPECIFIED
  }

  function UnwrapErrCode<A>(e: Option<Error<A>>): Code {
    if e.None? then UNSPECIFIED else SwitchFrom(e.value, 0)
  }

  // ---------------------------------------------------------------------------------------

  /** The codes present anywhere in an error. */
  ghost function Codes<A>(e: Option<Error<A>>): set<Code> {
    if e.None? then {} else set c: Code | 0 <= c < CODES && IsCode(e.value, c)
  }

  /** The errors without a cause that an error is made of. */
  function Leaves<A>(e: Error<A>): seq<Error<A>>
    decreases e, 1
  {
    match e
    case Sentinel(_) => [e]
    case Plain(_) => [e]
    case WithMessage(_, cause) => Leaves(cause)
    case Joined(errs) => LeavesOf(errs)
    case Structured(err, _) => Leaves(err)
  }

  function LeavesOf<A>(errs: seq<Error<A>>): seq<Error<A>>
    decreases errs, 0
  {
    if errs == [] then [] else Leaves(errs[0]) + LeavesOf(errs[1..])
  }

  /** An error has a code exactly when the code's sentinel is one of the errors it is made of. */
  lemma {:induction false} HasCodeExactlyWhen<A>(e: Error<A>, c: Code)
    ensures IsCode(e, c) <==> Sentinel(c) in Leaves(e)
    decreases e, 1
  {
    match e
    case Sentinel(_) =>
    case Plain(_) =>
    case WithMessage(_, cause) => HasCodeExactlyWhen(cause, c);
    case Joined(errs) => SomeHasCode(errs, c);
    case Structured(err, _) => HasCodeExactlyWhen(err, c);
  }

  lemma {:induction false} SomeHasCode<A>(errs: seq<Error<A>>, c: Code)
    ensures (exists i :: 0 <= i < |errs| && IsCode(errs[i], c)) <==> Sentinel(c) in LeavesOf(errs)
    decreases errs, 0
  {
    if errs != [] {
      HasCodeExactlyWhen(errs[0], c);
      SomeHasCode(errs[1..], c);
      if i :| 0 <= i < |errs| && IsCode(errs[i], c) {
        assert i > 0 ==> errs[1..][i - 1] == errs[i];
      }
      if i :| 0 <= i < |errs[1..]| && IsCode(errs[1..][i], c) {
        assert errs[i + 1] == errs[1..][i];
      }
    }
  }

  /** The attributes of all structured errors inside an error, depth first. */
  function AttrLists<A>(e: Error<A>): seq<seq<A>>
    decreases e, 1
  {
    match e
    case Sentinel(_) => []
    case Plain(_) => []
    case WithMessage(_, cause) => AttrLists(cause)
    case Joined(errs) => AttrListsOf(errs)
    case Structured(err, attrs) => [attrs] + AttrLists(err)
  }

  function AttrListsOf<A>(errs: seq<Error<A>>): seq<seq<A>>
    decreases errs, 0
  {
    if errs == [] then [] else AttrLists(errs[0]) + AttrListsOf(errs[1..])
  }

  /** The structured error that wrapping takes its attributes from is the first of them, if there is one. */
  lemma {:induction false} FirstInOrder<A>(e: Error<A>)
    ensures FirstStructured(e) == if AttrLists(e) == [] then None else Some(AttrLists(e)[0])
    decreases e, 1
  {
    match e
    case Sentinel(_) =>
    case Plain(_) =>
    case WithMessage(_, cause) => FirstInOrder(cause);
    case Joined(errs) => FirstOfJoin(errs);
    case Structured(_, _) =>
  }

  lemma {:induction false} FirstOfJoin<A>(errs: seq<Error<A>>)
    ensures FirstStructuredOf(errs) == if AttrListsOf(errs) == [] then None else Some(AttrListsOf(errs)[0])
    decreases errs, 0
  {
    if errs != [] {
      FirstInOrder(errs[0]);
      FirstOfJoin(errs[1..]);
    }
  }

  /** The least of the codes, or unspecified if there are none. */
  ghost predicate IsLeast(codes: set<Code>, c: Code) {
    if codes == {} then c == UNSPECIFIED else c in codes && forall d :: d in codes ==> c <= d
  }

  lemma {:induction false} SwitchIsLeast<A>(e: Error<A>, c: Code)
    requires forall d: Code :: d < c ==> !IsCode(e, d)
    ensures IsLeast(Codes(Some(e)), SwitchFrom(e, c))
    decreases CODES - c
  {
    if IsCode(e, c) {
      assert c in Codes(Some(e));
    } else if c + 1 < CODES {
      SwitchIsLeast(e, c + 1);
    } else {
      assert Codes(Some(e)) == {};
    }
  }

  /** Reading the code of any error tree gives the least code present. */
  lemma {:induction false} LeastCodeWins<A>(e: Option<Error<A>>)
    ensures IsLeast(Codes(e), UnwrapErrCode(e))
  {
    if e.Some? {
      SwitchIsLeast(e.value, 0);
    }
  }

  /** One layer put around an error. */
  datatype Layer<A> = Message(msg: string, attrs: seq<A>) | Coded(code: nat)

  function Put<A>(layer: Layer<A>, e: Option<Error<A>>): Option<Error<A>> {
    match layer
    case Message(msg, attrs) => Wrap(e, msg, attrs)
    case Coded(code) => WrapErrWithCode(code, e)
  }

  /** The layers around an error, outermost first. */
  function PutAll<A>(layers: seq<Layer<A>>, e: Option<Error<A>>): Option<Error<A>> {
    if layers == [] then e else Put(layers[0], PutAll(layers[1..], e))
  }

  ghost function LayerCodes<A>(layers: seq<Layer<A>>): set<Code> {
    set i | 0 <= i < |layers| && layers[i].Coded? :: (if layers[i].code < CODES then layers[i].code else UNSPECIFIED)
  }

  lemma {:induction false} CodesOfPut<A>(layer: Layer<A>, e: Option<Error<A>>)
    ensures Codes(Put(layer, e)) == Codes(e) + LayerCodes([layer])
  {
    var out := Put(layer, e);
    if layer.Coded? {
      var errs := out.value.errs;
      var own: Code := if layer.code < CODES then layer.code else UNSPECIFIED;
      assert errs[0] == Sentinel(own);
      assert [layer][0].Coded?;
      assert LayerCodes([layer]) == {own};
      forall c: Code
        ensures IsCode(out.value, c) <==> c == own || (e.Some? && IsCode(e.value, c))
      {
        if e.Some? {
          assert errs[1] == e.value;
        }
        if IsCode(errs[0], c) {
          assert IsCode(out.value, c);
        }
      }
    } else {
      assert LayerCodes([layer]) == {};
      if e.Some? {
        forall c: Code
          ensures IsCode(out.value, c) <==> IsCode(e.value, c)
        {
          assert IsCode(out.value, c) <==> IsCode(out.value.err, c);
        }
      }
    }
  }

  lemma {:induction false} LayerCodesCons<A>(layers: seq<Layer<A>>)
    requires layers != []
    ensures LayerCodes(layers) == LayerCodes([layers[0]]) + LayerCodes(layers[1..])
  {
    var own, rest := LayerCodes([layers[0]]), LayerCodes(layers[1..]);
    forall c | c in LayerCodes(layers)
      ensures c in own + rest
    {
      var i :| 0 <= i < |layers| && layers[i].Coded? &&
        c == if layers[i].code < CODES then layers[i].code else UNSPECIFIED;
      if i > 0 {
        assert layers[1..][i - 1] == layers[i];
      } else {
        assert [layers[0]][0] == layers[i];
      }
    }
    forall c | c in own + rest
      ensures c in LayerCodes(layers)
    {
      if c in own {
        assert layers[0] == [layers[0]][0];
      } else {
        var i :| 0 <= i < |layers[1..]| && layers[1..][i].Coded? &&
          c == if layers[1..][i].code < CODES then layers[1..][i].code else UNSPECIFIED;
        assert layers[i + 1] == layers[1..][i];
      }
    }
  }

  lemma {:induction false} CodesOfLayers<A>(layers: seq<Layer<A>>, e: Option<Error<A>>)
    ensures Codes(PutAll(layers, e)) == Codes(e) + LayerCodes(layers)
    decreases |layers|
  {
    if layers != [] {
      CodesOfLayers(layers[1..], e);
      CodesOfPut(layers[0], PutAll(layers[1..], e));
      LayerCodesCons(layers);
    }
  }

  /** The code read back through any layers is the least of the codes attached by the layers and
      those already there; messages never change it, and neither does the order of the layers. */
  lemma {:induction false} LayeredCode<A>(layers: seq<Layer<A>>, e: Option<Error<A>>)
    ensures IsLeast(Codes(e) + LayerCodes(layers), UnwrapErrCode(PutAll(layers, e)))
  {
    CodesOfLayers(layers, e);
    LeastCodeWins(PutAll(layers, e));
  }

  /** Layers put on in any other order, or more than once, give the same code. */
  lemma {:induction false} LayerOrderIrrelevant<A>(layers: seq<Layer<A>>, layers': seq<Layer<A>>, e: Option<Error<A>>)
    requires forall l :: l in layers <==> l in layers'
    ensures UnwrapErrCode(PutAll(layers, e)) == UnwrapErrCode(PutAll(layers', e))
  {
    SameLayerCodes(layers, layers');
    SameLayerCodes(layers', layers);
    LayeredCode(layers, e);
    LayeredCode(layers', e);
  }

  lemma {:induction false} SameLayerCodes<A>(layers: seq<Layer<A>>, layers': seq<Layer<A>>)
    requires forall l :: l in layers ==> l in layers'
    ensures LayerCodes(layers) <= LayerCodes(layers')
  {
    forall c | c in LayerCodes(layers)
      ensures c in LayerCodes(layers')
    {
      var i :| 0 <= i < |layers| && layers[i].Coded? &&
        c == if layers[i].code < CODES then layers[i].code else UNSPECIFIED;
      assert layers[i] in layers';
      var j :| 0 <= j < |layers'| && layers'[j] == layers[i];
    }
  }

  // ---------------------------------------------------------------------------------------

  /** The attributes errors.As finds on an error. */
  function Attrs<A>(e: Option<Error<A>>): seq<A> {
    if e.Some? && FirstStructured(e.value).Some? then FirstStructured(e.value).value else []
  }

  function LayerAttrs<A>(layers: seq<Layer<A>>): seq<A> {
    if layers == [] then []
    else (if layers[0].Message? then layers[0].attrs else []) + LayerAttrs(layers[1..])
  }

  lemma {:induction false} AttrsOfPut<A>(layer: Layer<A>, e: Error<A>)
    ensures Put(layer, Some(e)).Some?
    ensures Attrs(Put(layer, Some(e))) == (if layer.Message? then layer.attrs else []) + Attrs(Some(e))
  {
    if layer.Coded? {
      var errs := Put(layer, Some(e)).value.errs;
      assert errs[1..] == [e] && [e][1..] == [];
      assert FirstStructured(errs[0]) == None;
      assert FirstStructuredOf(errs) == FirstStructuredOf([e]) == FirstStructured(e);
    }
  }

  lemma {:induction false} Regroup<T>(xs: seq<T>, ys: seq<T>, zs: seq<T>)
    ensures xs + (ys + zs) == (xs + ys) + zs
  {
  }

  /** Every layer's attributes survive any further layers of messages and codes: an error carries
      all of them, outermost first, ahead of its own. */
  lemma {:induction false} LayeredAttrs<A>(layers: seq<Layer<A>>, e: Error<A>)
    ensures PutAll(layers, Some(e)).Some?
    ensures Attrs(PutAll(layers, Some(e))) == LayerAttrs(layers) + Attrs(Some(e))
    decreases |layers|
  {
    if layers != [] {
      LayeredAttrs(layers[1..], e);
      AttrsOfPut(layers[0], PutAll(layers[1..], Some(e)).value);
      Regroup(if layers[0].Message? then layers[0].attrs else [], LayerAttrs(layers[1..]), Attrs(Some(e)));
    }
  }

  // ---------------------------------------------------------------------------------------

  /** The messages of an error, outermost first. */
  function Messages<A>(e: Error<A>): seq<string>
    decreases e, 1
  {
    match e
    case Sentinel(_) => []
    case Plain(_) => []
    case WithMessage(msg, cause) => [msg] + Messages(cause)
    case Joined(errs) => MessagesOf(errs)
    case Structured(err, _) => Messages(err)
  }

  function MessagesOf<A>(errs: seq<Error<A>>): seq<string>
    decreases errs, 0
  {
    if errs == [] then [] else Messages(errs[0]) + MessagesOf(errs[1..])
  }

  function LayerMessages<A>(layers: seq<Layer<A>>): seq<string> {
    if layers == [] then []
    else (if layers[0].Message? then [layers[0].msg] else []) + LayerMessages(layers[1..])
  }

  lemma {:induction false} MessagesOfPut<A>(layer: Layer<A>, e: Error<A>)
    ensures Put(layer, Some(e)).Some?
    ensures Messages(Put(layer, Some(e)).value) == (if layer.Message? then [layer.msg] else []) + Messages(e)
  {
    if layer.Coded? {
      var errs := Put(layer, Some(e)).value.errs;
      assert errs[1..] == [e] && [e][1..] == [];
      assert MessagesOf([e]) == Messages(e) + MessagesOf<A>([]);
      assert MessagesOf(errs) == Messages(errs[0]) + MessagesOf([e]);
    }
  }

  /** Every layer's message survives further layers too, outermost first. */
  lemma {:induction false} LayeredMessages<A>(layers: seq<Layer<A>>, e: Error<A>)
    ensures PutAll(layers, Some(e)).Some?
    ensures Messages(PutAll(layers, Some(e)).value) == LayerMessages(layers) + Messages(e)
    decreases |layers|
  {
    if layers != [] {
      LayeredMessages(layers[1..], e);
      MessagesOfPut(layers[0], PutAll(layers[1..], Some(e)).value);
      Regroup(if layers[0].Message? then [layers[0].msg] else [], LayerMessages(layers[1..]), Messages(e));
    }
  }

  /** Wrapping no error gives no error, while attaching a code to none gives an error with that code. */
  lemma {:induction false} LayersOnNil<A>(msg: string, attrs: seq<A>, code: nat)
    ensures Wrap<A>(None, msg, attrs) == None
    ensures WrapErrWithCode<A>(code, None).Some?
    ensures Codes(WrapErrWithCode<A>(code, None)) == {if code < CODES then code else UNSPECIFIED}
  {
    var layer: Layer<A> := Coded(code);
    CodesOfPut(layer, None);
    assert [layer][0].Coded?;
  }
}
