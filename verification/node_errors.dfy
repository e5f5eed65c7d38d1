/** Instances of the coded error classes: what the `NodeError` constructor
    leaves on a new instance, the name handling of `addCodeToName`, and
    `toString`. Stack-trace capture is not modelled; of the stack only the
    name it is rendered under is kept. */
module NodeErrors {
  import opened Values
  import opened Kinds
  import opened Messages

  /** Whether the instance has an own `name` property, or inherits its name
      from the base class. */
  datatype OwnName = Inherited | Own(value: string)

  /** A constructed error. `stackName` is the name in effect when the stack
      text was generated; `name` is the own name left afterwards. */
  datatype ErrorInstance = ErrorInstance(
    cls: NodeErrorClass,
    code: Code,
    message: Rendered,
    name: OwnName,
    stackName: string)

  /** The name `err.name` resolves to: the own one, else, once the own one
      is deleted, the one found on the base class's prototype. */
  function Name(e: ErrorInstance): (n: string)
    ensures e.name.Own? ==> n == e.name.value
    ensures e.name.Inherited? ==> n == BaseName(e.cls.base)
  {
    match e.name
    case Own(n) => n
    case Inherited => BaseName(e.cls.base)
  }

  /** The temporary name `addCodeToName` gives the instance while the stack
      text is generated. */
  function AnnotatedName(name: string, code: Code): (n: string)
    ensures |n| == |name| + |code| + 3
    ensures n[..|name|] == name
    ensures n[|name|..] == " [" + code + "]"
    ensures n != name
  {
    name + " [" + code + "]"
  }

  /** The own name `addCodeToName` leaves behind: `SystemError` is set as an
      own property, any other name is deleted. */
  function RestoredName(name: string): (own: OwnName)
    ensures own.Own? <==> name == "SystemError"
    ensures own.Own? ==> own.value == name
  {
    if name == "SystemError" then Own(name) else Inherited
  }

  /** `new cls(...args)` with the message table `messages`. */
  function Construct(messages: map<Code, MessageSpec>, cls: NodeErrorClass, args: seq<Value>): (e: ErrorInstance)
    ensures e.cls == cls && e.code == cls.key
    ensures e.message == GetMessage(messages, cls.key, args, cls)
    ensures e.name.Own? <==> cls.base == SystemError
    ensures Name(e) == BaseName(cls.base)
    ensures e.stackName == BaseName(cls.base) + " [" + cls.key + "]"
    ensures Name(e) != e.stackName
  {
    var base := BaseName(cls.base);
    ErrorInstance(cls, cls.key, GetMessage(messages, cls.key, args, cls), RestoredName(base), AnnotatedName(base, cls.key))
  }

  /** `err.toString()`: the name, the class's code in brackets, a colon, and
      the displayed message. */
  function ToString(e: ErrorInstance): (s: string)
    ensures var head := Name(e) + " [" + e.cls.key + "]: ";
      && |head| <= |s|
      && s[..|head|] == head
      && s[|head|..] == Display(e.message)
  {
    Name(e) + " [" + e.cls.key + "]: " + Display(e.message)
  }

  /** The string form of a freshly constructed error names the base kind and
      the code its class was made for. */
  lemma ConstructedToString(messages: map<Code, MessageSpec>, cls: NodeErrorClass, args: seq<Value>)
    ensures ToString(Construct(messages, cls, args))
      == BaseName(cls.base) + " [" + cls.key + "]: " + Display(GetMessage(messages, cls.key, args, cls))
  {
  }

  /** A template code constructed with arguments prints the template and
      the comma-joined arguments, not a formatted message. */
  lemma TemplateWithArgsToString(messages: map<Code, MessageSpec>, cls: NodeErrorClass, t: string, args: seq<Value>)
    requires cls.key in messages && messages[cls.key] == Template(t)
    requires |args| > 0
    ensures ToString(Construct(messages, cls, args))
      == (BaseName(cls.base) + " [" + cls.key + "]: ") + (t + "," + Join(args))
  {
    DisplayTemplateWithArgs(t, args);
  }

  /** A template code constructed without arguments prints the template as
      it is. */
  lemma TemplateNoArgsToString(messages: map<Code, MessageSpec>, cls: NodeErrorClass, t: string)
    requires cls.key in messages && messages[cls.key] == Template(t)
    ensures ToString(Construct(messages, cls, []))
      == BaseName(cls.base) + " [" + cls.key + "]: " + t
  {
  }
}
