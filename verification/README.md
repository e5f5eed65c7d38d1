# Coded-error registry of react-native-http-server, in Dafny

This project models `internal/errors.ts`, the coded-error registry of the
HTTP server. The registry keeps two tables:

- `messages` maps an error code to its message specification: a fixed
  template string, or a function computed from the constructor's arguments.
- `codes` maps the code to an error class.

`E(sym, val, def, ...others)` registers a code. It stores the message, then
publishes a class that extends the base class `def` and is bound to `sym`.
For each extra base class it attaches a sibling class to the published one,
keyed by that base class's name. Constructing one of these classes renders
the message with `getMessage`, then names the instance `"<Base> [<code>]"`
while the stack text is generated. Afterwards it restores the name: it sets
an own `name` of `"SystemError"` when the base is named `SystemError`, and
otherwise deletes the own `name`. Finally it sets `code`. `toString()`
prints `name [code]: message`. When the module loads, ten codes are
registered. One of them, `ERR_INVALID_CHAR`, has a computed message.

Layout, one module per file:

- `values.dfy` (`Values`): the JavaScript values passed to constructors. It
  also defines the conversions that string interpolation
  (`${v}`) and `Array.prototype.join(",")` apply to them, and the decimal
  text of integers.
- `kinds.dfy` (`Kinds`): the base kinds (`Error`, `RangeError`,
  `TypeError`, `SystemError`) and the coded class, which is modelled as the
  pair of base kind and code.
- `messages.dfy` (`Messages`): message specifications, `getMessage`, and
  the `ERR_INVALID_CHAR` message function.
- `node_errors.dfy` (`NodeErrors`): instance construction, the name
  handling of `addCodeToName`, and `toString`.
- `registry.dfy` (`Registry`): `E`, the sibling classes, running a
  sequence of registrations, and the invariant that keeps every published
  class bound to its own code.
- `seqs.dfy` (`Seqs`): a sequence fact the registry's inductions share.
- `startup.dfy` (`Startup`): the table run at load time and what the
  registry holds afterwards.

Messages built from a template are never formatted. For a template
with arguments, `getMessage` returns the array `[template, ...args]`
(internal/errors.ts:109-113), and the constructor stores that array as
`message`. `toString` interpolates the array, and interpolation joins it
with commas. `Startup.InvalidStatusCodeExample` proves that
`new codes.ERR_HTTP_INVALID_STATUS_CODE(999)` prints as
`RangeError [ERR_HTTP_INVALID_STATUS_CODE]: Invalid status code: %s,999`.
`E` does not check whether a code is already registered
(internal/errors.ts:91,99). A later registration of the same code replaces
the earlier one, and the model does the same.

## Model

| member | source | states |
|---|---|---|
| `Registry.Register` | internal/errors.ts:88-100 | After `E(sym, val, def, ...others)`, `messages[sym]` is `val` and `codes[sym]` is a class of base `def` bound to `sym`, with the siblings for `others`. The key sets grow by `sym` only. Every other code keeps its message and its class. |
| `Registry.Siblings` | internal/errors.ts:94-97 | The sibling table has one key per base name in `others`. Every sibling is bound to `sym` and has the base named by its key. For each extra base, the entry under its name is that base's class unless a later extra base has the same name, so the later one wins. |
| `Registry.RegisterPreservesWellFormed` | internal/errors.ts:88-100 | Registration keeps the registry well formed. Every published code has a message, and every class published under a code is bound to that code. |
| `Registry.PublishedInstance` | internal/errors.ts:43-51 | An instance of any class a well-formed registry publishes under `k` has `code == k`. This holds for siblings as well as the primary class. Its message is rendered from the spec stored under `k`. |
| `Registry.RegisterAll` | internal/errors.ts:116-137 | Running a sequence of registrations adds exactly their codes and leaves every other code untouched. Each code ends up with the message and classes of the last registration that used it. |
| `Messages.GetMessage` | internal/errors.ts:102-114 | A computed spec yields the function's result for the given arguments and receiver. A template with no arguments yields the template unchanged. A template with n > 0 arguments yields a sequence of n+1 items: the template, then the arguments in order. An unregistered key yields `undefined` by the same template rule. |
| `Messages.RenderTemplate` | internal/errors.ts:109-113 | The template branch loses nothing: the template and the arguments can be read back from the result. The result is a single value exactly when there are no arguments. |
| `Messages.InvalidCharMessage` | internal/errors.ts:123-128 | The message starts with `"Invalid character in " + name`. It equals that text exactly when `field` is `undefined`. Otherwise the rest is ` ["<field>"]`. |
| `Messages.DisplayTemplateWithArgs` | internal/errors.ts:112-113 | A template rendered with arguments is displayed as the template, a comma and the comma-joined arguments, and no placeholder is filled in. |
| `Messages.DisplayedTemplateSplits` | internal/errors.ts:112-113 | If neither the template nor any argument contains a comma, splitting the displayed message at its commas gives back the template and each argument's text. |
| `NodeErrors.Construct` | internal/errors.ts:33-52 | A new instance is bound to its class's code, and its message is what `getMessage` returns for that code and the arguments. It has an own name exactly when the base is `SystemError`. Its visible name is the base kind's name. The stack text was generated under `"<Base> [<code>]"`, a name that does not survive construction. |
| `NodeErrors.RestoredName` | internal/errors.ts:73-83 | After the stack is read, the instance keeps an own name exactly when the base is named `SystemError`, and that name is `SystemError`. For any other base, the own name is removed. |
| `NodeErrors.ToString` | internal/errors.ts:54-56 | `toString()` is made of the name, then ` [` + the class's code + `]: `, then the interpolated message. |
| `NodeErrors.ConstructedToString` | internal/errors.ts:50-55 | For a fresh instance, `toString()` is `"<Base> [<code>]: "` followed by the interpolated rendered message. |
| `NodeErrors.TemplateWithArgsToString` | internal/errors.ts:109-113 | For a template code constructed with arguments, `toString()` ends with the template, a comma and the comma-joined arguments. |
| `NodeErrors.TemplateNoArgsToString` | internal/errors.ts:109-110 | For a template code constructed with no arguments, `toString()` ends with the template itself. |
| `Startup.TableCodesDistinct` | internal/errors.ts:116-137 | The ten registrations at load time use ten different codes. |
| `Startup.LoadedEntry` | internal/errors.ts:116-137 | After loading, every registration of the table holds under its code: its message, plus a class of its base kind with no siblings. |
| `Startup.LoadedTable` | internal/errors.ts:116-137 | For each of the ten codes, the loaded registry holds its template or the `ERR_INVALID_CHAR` function. It also holds its base kind: `ERR_HTTP_HEADERS_SENT`→Error, `ERR_HTTP_INVALID_STATUS_CODE`→RangeError, `ERR_INVALID_ARG_TYPE`, `ERR_INVALID_CHAR`, `ERR_HTTP_INVALID_HEADER_VALUE` and `ERR_INVALID_HTTP_TOKEN`→TypeError, and the rest→Error. |
| `Startup.LoadedCodes` | internal/errors.ts:116-137 | The loaded registry publishes exactly the ten codes of the table. |
| `Startup.LoadedCount` | internal/errors.ts:116-137 | Both tables of the loaded registry have ten entries, because no registration replaces another. |
| `Startup.LoadedWellFormed` | internal/errors.ts:116-137 | In the loaded registry every code has a message, and every published class is bound to its code. |
| `Registry.RegisterAllPreservesWellFormed` | internal/errors.ts:88-100 | Running any sequence of registrations keeps a well-formed registry well formed. |
| `Registry.DistinctTableEntry` | internal/errors.ts:116-137 | When a sequence of registrations uses distinct codes, every one of them survives. Its code holds its message and its classes. |
| `Registry.DistinctCodesCount` | internal/errors.ts:116-137 | A table of distinct codes mentions as many codes as it has registrations. |
| `Startup.InvalidStatusCodeExample` | internal/errors.ts:118 | `new codes.ERR_HTTP_INVALID_STATUS_CODE(999)` has `code` `ERR_HTTP_INVALID_STATUS_CODE` and name `RangeError`. Its message is the sequence of the template and 999. It prints as `RangeError [ERR_HTTP_INVALID_STATUS_CODE]: Invalid status code: %s,999`. |
| `Startup.InvalidCharExample` | internal/errors.ts:120-129 | `ERR_INVALID_CHAR` constructed with a name and a field quotes the field in brackets. Without a field the message is just the prefix and the name, and `toString()` prints `TypeError [ERR_INVALID_CHAR]: Invalid character in header content`. |
| `Registry.SiblingFor` | internal/errors.ts:94-97 | For every extra base kind passed to `E`, the sibling published under that kind's name is the class made from that kind for `sym`. The four base kinds have four different names, so no other kind overwrites it. |
| `Messages.Apply` | internal/errors.ts:105-107 | Calling the message function spreads the arguments over `(name, field = undefined)`. With two or more arguments the result is the message for the first two. With one argument the field defaults to `undefined` and the result is the prefix and the name. With none, the name is also `undefined`, so the result is `Invalid character in undefined`. The result is always a string. |
| `Messages.Display` | internal/errors.ts:55 | `${this.message}` gives the string conversion of a single value. For an array it gives the comma-joined elements. When the array is non-empty and no element's text contains a comma, splitting that string at its commas gives back each element's text. |
| `NodeErrors.AnnotatedName` | internal/errors.ts:69 | The temporary name is the base name followed by ` [` + code + `]`. It is three characters longer than the base name and the code together, and it differs from the base name. |
| `Values.ToJsString` | internal/errors.ts:124 | Interpolation writes `undefined` and `null` as those words, and a boolean as `true` or `false` according to its value. An integer is written as its decimal text, which starts with `-` exactly when the integer is negative. A string is written unchanged. |
| `Values.Join` | internal/errors.ts:55 | `join(",")` of an empty array is empty, and of a one-element array it is that element's text. A longer array's text starts with the first element's text followed by a comma. `Values.SplitJoin` states what follows. |
| `Values.NatDecimalRoundTrip` | internal/errors.ts:124 | The decimal text that interpolation produces for a natural number reads back as that number. |
| `Values.IntDecimalRoundTrip` | internal/errors.ts:124 | The text interpolation produces for an integer starts with `-` exactly when the integer is negative, and its digits read back as the integer's magnitude. |
| `Values.SplitJoin` | internal/errors.ts:55 | Splitting the comma-joined text of a non-empty array at its commas gives back each element's text, provided no element's text contains a comma. |

## Left out

- Stack traces are not modelled. This covers `excludedStackFn`, the save,
  zero and restore of `Error.stackTraceLimit`, `Error.captureStackTrace`,
  and the forced `err.stack` read. These are host-runtime primitives with
  no functional result. Of the stack, only the name it is generated under
  is kept, as `stackName`.
- Property descriptors are not modelled (enumerable, writable,
  configurable). `message` and `name` are plain fields. The own `name` is
  an `OwnName` value: either inherited or set.
- Dynamic subclassing and prototype lookup are replaced by a base-kind tag
  on the class. Only four bases are modelled. `Error`, `RangeError` and
  `TypeError` are JavaScript built-ins. `SystemError` is not, and
  internal/errors.ts does not define it. The model assumes a base class
  whose `name` and `prototype.name` are both `"SystemError"`. Any other base
  class can have a `name` different from its prototype's `name`, so it
  would not fit a single tag. The four bases have four different names,
  so two extra bases with the same name are the same kind and give equal
  classes. The source case where the last one wins, two different classes
  that share a `name` (internal/errors.ts:95-97), needs class identity and
  is not modelled.
- `NodeErrors.Name` stands in for the prototype lookup of `err.name` and is
  defined by cases: the own name if set, else the base's name. What it
  gives for a constructed instance is stated by `NodeErrors.Construct`:
  `Name(e) == BaseName(cls.base)` and `Name(e) != e.stackName`.
- `Messages.GetMessage`: the computed branch covers only the one message
  function in the table, `ERR_INVALID_CHAR`'s, which returns a string. In
  the source, `getMessage` returns whatever the function returns
  (internal/errors.ts:105-106), and the constructor stores it as `message`
  (internal/errors.ts:43-45). `E` is used only in this file
  (internal/errors.ts:86-87, 116-137), so no other function can be
  registered.
- `%s` substitution is not modelled, because this file never performs it.
- The in-place `unshift` on the caller's `args` array is not modelled.
  Only the returned sequence is.
- Only arguments that are `undefined`, `null`, booleans, integers and
  strings are modelled. Integers are printed in plain decimal. JavaScript
  switches to exponent form at 10^21 and prints fractions, and neither is
  modelled. `Values.Value`'s `Num` also admits integers above 2^53, which
  no JavaScript number holds exactly. Objects, symbols and arrays passed
  as arguments are not modelled.
- `codes` is a plain object literal (internal/errors.ts:27). Reading an
  unregistered code that is not a property of `Object.prototype` gives
  `undefined`, which cannot be constructed. Names inherited from
  `Object.prototype`, such as `constructor`, `toString` and `__proto__`,
  give other values, and `codes.constructor` can be constructed. The model
  covers only the registered codes and constructs only classes it is
  given.
- `Messages.Apply`: the receiver of `apply` is replaced by the class. In
  the source, the receiver is the half-built instance, `this` at
  internal/errors.ts:43, and its `code` is not set yet.
  `NodeErrors.Construct` passes the class `cls` instead. This is harmless
  only because the one computed message in the table is an arrow function,
  which ignores its receiver.
