/** Message specifications and the rendering rule of `getMessage`. A message
    is either a fixed template, returned as it is or together with the
    constructor's arguments, or a function computed from those arguments.
    No `%s` placeholder is ever substituted here. */
module Messages {
  import opened Values
  import opened Kinds

  /** The message functions the registry's table stores. There is one. */
  datatype ComputedFn = InvalidCharFn

  datatype MessageSpec = Template(template: string) | Computed(fn: ComputedFn)

  /** What `getMessage` returns: one value, or the array that results from
      putting the template in front of the arguments. */
  datatype Rendered = Plain(value: Value) | Parts(items: seq<Value>)

  /** The positional parameter `i` of a function called with `args`: a
      missing argument, like a defaulted `undefined` one, is `undefined`. */
  function Arg(args: seq<Value>, i: nat): (v: Value)
    ensures i < |args| ==> v == args[i]
    ensures i >= |args| ==> v == Undefined
  {
    if i < |args| then args[i] else Undefined
  }

  const InvalidCharPrefix: string := "Invalid character in "

  /** The message function registered for `ERR_INVALID_CHAR`. */
  function InvalidCharMessage(name: Value, field: Value): (msg: string)
    ensures var head := InvalidCharPrefix + ToJsString(name);
      && |head| <= |msg|
      && msg[..|head|] == head
      && (field == Undefined <==> msg == head)
      && (field != Undefined ==> msg[|head|..] == " [\"" + ToJsString(field) + "\"]")
  {
    var head := InvalidCharPrefix + ToJsString(name);
    if field != Undefined then head + " [\"" + ToJsString(field) + "\"]" else head
  }

  /** Calls a message function with `args` spread as its parameters. A
      missing `name` or `field` is `undefined`, and arguments past the
      second are ignored. The receiver `self` stands for the one `apply`
      supplies; the one function in the table is an arrow function, which
      does not see it. */
  function Apply(fn: ComputedFn, self: NodeErrorClass, args: seq<Value>): (v: Value)
    ensures v.Str?
    ensures |args| >= 2 ==> v.s == InvalidCharMessage(args[0], args[1])
    ensures |args| == 1 ==> v.s == InvalidCharPrefix + ToJsString(args[0])
    ensures |args| == 0 ==> v.s == InvalidCharPrefix + "undefined"
  {
    match fn
    case InvalidCharFn => Str(InvalidCharMessage(Arg(args, 0), Arg(args, 1)))
  }

  /** The fixed-template branch of `getMessage`: the template alone when
      there are no arguments, otherwise the template followed by them. */
  function RenderTemplate(msg: Value, args: seq<Value>): (r: Rendered)
    ensures Unrender(r) == (msg, args)
    ensures |args| == 0 <==> r.Plain?
  {
    if |args| == 0 then Plain(msg) else Parts([msg] + args)
  }

  /** Reads a template result back into the template and the arguments. */
  function Unrender(r: Rendered): (Value, seq<Value>) {
    match r
    case Plain(v) => (v, [])
    case Parts(items) => if |items| == 0 then (Undefined, []) else (items[0], items[1..])
  }

  function RenderSpec(spec: MessageSpec, args: seq<Value>, self: NodeErrorClass): Rendered {
    match spec
    case Computed(fn) => Plain(Apply(fn, self, args))
    case Template(t) => RenderTemplate(Str(t), args)
  }

  /** `getMessage(key, args, self)` over the message table `messages`. A key
      that has no entry reads as `undefined` and takes the template branch. */
  function GetMessage(messages: map<Code, MessageSpec>, key: Code, args: seq<Value>, self: NodeErrorClass): (r: Rendered)
    ensures key in messages && messages[key].Computed? ==>
      r == Plain(Apply(messages[key].fn, self, args))
    ensures key in messages && messages[key].Template? && |args| == 0 ==>
      r == Plain(Str(messages[key].template))
    ensures key in messages && messages[key].Template? && |args| > 0 ==>
      && r.Parts?
      && |r.items| == |args| + 1
      && r.items[0] == Str(messages[key].template)
      && r.items[1..] == args
    ensures key !in messages ==> Unrender(r) == (Undefined, args) && (|args| == 0 <==> r.Plain?)
  {
    if key in messages then RenderSpec(messages[key], args, self) else RenderTemplate(Undefined, args)
  }

  /** The string `${message}` produces for a rendered message: an array is
      joined with commas. When no element's text has a comma, the elements
      can be read back by splitting at the commas. */
  function Display(r: Rendered): (s: string)
    ensures r.Plain? ==> s == ToJsString(r.value)
    ensures r.Parts? ==> s == Join(r.items)
    ensures r.Parts? && |r.items| > 0 && NoCommaIn(r.items) ==> Split(s) == Elements(r.items)
  {
    match r
    case Plain(v) => ToJsString(v)
    case Parts(items) =>
      if |items| > 0 && NoCommaIn(items) then SplitJoin(items); Join(items) else Join(items)
  }

  /** A template rendered with arguments displays as the template, a comma,
      and the comma-joined arguments: the placeholders stay unfilled. */
  lemma DisplayTemplateWithArgs(t: string, args: seq<Value>)
    requires |args| > 0
    ensures Display(RenderTemplate(Str(t), args)) == t + "," + Join(args)
  {
    assert ([Str(t)] + args)[1..] == args;
  }

  /** When neither the template nor any argument contains a comma, the
      displayed message splits back into the template and the arguments'
      strings. */
  lemma DisplayedTemplateSplits(t: string, args: seq<Value>)
    requires |args| > 0
    requires ',' !in t
    requires NoCommaIn(args)
    ensures Split(Display(RenderTemplate(Str(t), args))) == [t] + Elements(args)
  {
    var items := [Str(t)] + args;
    NoCommaCons(t, args);
    SplitJoin(items);
    assert items[1..] == args;
  }

  lemma NoCommaCons(t: string, args: seq<Value>)
    requires ',' !in t
    requires NoCommaIn(args)
    ensures NoCommaIn([Str(t)] + args)
  {
    var items := [Str(t)] + args;
    forall i | 0 <= i < |items| ensures ',' !in JoinElement(items[i]) {
      if i > 0 {
        assert items[i] == args[i - 1];
      }
    }
  }
}
