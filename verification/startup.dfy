/** The registration table the module runs when it is loaded, and what the
    registry holds afterwards. */
module Startup {
  import opened Values
  import opened Kinds
  import opened Messages
  import opened NodeErrors
  import opened Registry

  const HeadersSent: Code := "ERR_HTTP_HEADERS_SENT"
  const InvalidStatusCode: Code := "ERR_HTTP_INVALID_STATUS_CODE"
  const InvalidArgType: Code := "ERR_INVALID_ARG_TYPE"
  const InvalidChar: Code := "ERR_INVALID_CHAR"
  const InvalidHeaderValue: Code := "ERR_HTTP_INVALID_HEADER_VALUE"
  const TrailerInvalid: Code := "ERR_HTTP_TRAILER_INVALID"
  const InvalidHttpToken: Code := "ERR_INVALID_HTTP_TOKEN"
  const MethodNotImplemented: Code := "ERR_METHOD_NOT_IMPLEMENTED"
  const StreamCannotPipe: Code := "ERR_STREAM_CANNOT_PIPE"
  const StreamWriteAfterEnd: Code := "ERR_STREAM_WRITE_AFTER_END"

  /** The `E(...)` calls, in the order they run. None passes extra base
      classes. */
  const Table: seq<Registration> := [
    Registration(HeadersSent, Template("Cannot %s headers after they are sent to the client"), Error, []),
    Registration(InvalidStatusCode, Template("Invalid status code: %s"), RangeError, []),
    Registration(InvalidArgType, Template(""), TypeError, []),
    Registration(InvalidChar, Computed(InvalidCharFn), TypeError, []),
    Registration(InvalidHeaderValue, Template("Invalid value \"%s\" for header \"%s\""), TypeError, []),
    Registration(TrailerInvalid, Template("Trailers are invalid with this transfer encoding"), Error, []),
    Registration(InvalidHttpToken, Template("%s must be a valid HTTP token [\"%s\"]"), TypeError, []),
    Registration(MethodNotImplemented, Template("The %s method is not implemented"), Error, []),
    Registration(StreamCannotPipe, Template("Cannot pipe, not readable"), Error, []),
    Registration(StreamWriteAfterEnd, Template("write after end"), Error, [])
  ]

  /** Every registration in the table uses a code of its own. */
  lemma TableCodesDistinct()
    ensures forall i, j :: 0 <= i < j < |Table| ==> Table[i].code != Table[j].code
  {
  }

  /** No registration in the table passes extra base classes. */
  lemma TableHasNoSiblings()
    ensures forall i :: 0 <= i < |Table| ==> Table[i].others == []
  {
  }

  /** The lemmas below are about the registry the module holds once loaded,
      `RegisterAll(Empty, Table)`. They name the table and that registry as
      parameters `table` and `r`, fixed to them by the precondition, so that
      the verifier reasons about the table through the registry lemmas
      instead of unfolding the ten registrations literally.

      Each registration of the load-time table is what the loaded registry
      holds for its code: its message, and a class of its base kind bound to
      it with no siblings. */
  lemma LoadedEntry(table: seq<Registration>, r: Registry, i: nat)
    requires table == Table && r == RegisterAll(Empty, table)
    requires i < |table|
    ensures table[i].code in r.messages && r.messages[table[i].code] == table[i].spec
    ensures table[i].code in r.codes
    ensures r.codes[table[i].code] == CodeEntry(NodeErrorClass(table[i].base, table[i].code), map[])
  {
    TableCodesDistinct();
    TableHasNoSiblings();
    DistinctTableEntry(Empty, table, i);
  }

  /** The codes the table registers. */
  lemma TableCodes()
    ensures CodesOf(Table) == {HeadersSent, InvalidStatusCode, InvalidArgType, InvalidChar,
      InvalidHeaderValue, TrailerInvalid, InvalidHttpToken, MethodNotImplemented, StreamCannotPipe,
      StreamWriteAfterEnd}
  {
    assert Table[0].code == HeadersSent;
    assert Table[1].code == InvalidStatusCode;
    assert Table[2].code == InvalidArgType;
    assert Table[3].code == InvalidChar;
    assert Table[4].code == InvalidHeaderValue;
    assert Table[5].code == TrailerInvalid;
    assert Table[6].code == InvalidHttpToken;
    assert Table[7].code == MethodNotImplemented;
    assert Table[8].code == StreamCannotPipe;
    assert Table[9].code == StreamWriteAfterEnd;
  }

  /** The registry loaded at start-up publishes exactly the table's ten
      codes. */
  lemma LoadedCodes(table: seq<Registration>, r: Registry)
    requires table == Table && r == RegisterAll(Empty, table)
    ensures r.codes.Keys == {HeadersSent, InvalidStatusCode, InvalidArgType, InvalidChar,
      InvalidHeaderValue, TrailerInvalid, InvalidHttpToken, MethodNotImplemented, StreamCannotPipe,
      StreamWriteAfterEnd}
  {
    TableCodes();
  }

  /** The loaded registry holds ten codes and ten messages: no registration
      of the load-time table replaces another. */
  lemma LoadedCount(table: seq<Registration>, r: Registry)
    requires table == Table && r == RegisterAll(Empty, table)
    ensures |r.codes| == |r.messages| == 10
  {
    TableCodesDistinct();
    DistinctTableCount(table);
  }

  /** In the registry loaded at start-up, every code has a message and
      every published class is bound to its code. */
  lemma LoadedWellFormed(table: seq<Registration>, r: Registry)
    requires table == Table && r == RegisterAll(Empty, table)
    ensures WellFormed(r)
  {
    RegisterAllPreservesWellFormed(Empty, table);
  }

  /** The message and the class each code of the loaded registry is
      published with: the load-time table's template or function, and a
      class of the table's base kind with no siblings. */
  lemma LoadedTable(table: seq<Registration>, r: Registry)
    requires table == Table && r == RegisterAll(Empty, table)
    ensures HeadersSent in r.messages && r.messages[HeadersSent] == Template("Cannot %s headers after they are sent to the client")
    ensures HeadersSent in r.codes && r.codes[HeadersSent] == CodeEntry(NodeErrorClass(Error, HeadersSent), map[])
    ensures InvalidStatusCode in r.messages && r.messages[InvalidStatusCode] == Template("Invalid status code: %s")
    ensures InvalidStatusCode in r.codes && r.codes[InvalidStatusCode] == CodeEntry(NodeErrorClass(RangeError, InvalidStatusCode), map[])
    ensures InvalidArgType in r.messages && r.messages[InvalidArgType] == Template("")
    ensures InvalidArgType in r.codes && r.codes[InvalidArgType] == CodeEntry(NodeErrorClass(TypeError, InvalidArgType), map[])
    ensures InvalidChar in r.messages && r.messages[InvalidChar] == Computed(InvalidCharFn)
    ensures InvalidChar in r.codes && r.codes[InvalidChar] == CodeEntry(NodeErrorClass(TypeError, InvalidChar), map[])
    ensures InvalidHeaderValue in r.messages && r.messages[InvalidHeaderValue] == Template("Invalid value \"%s\" for header \"%s\"")
    ensures InvalidHeaderValue in r.codes && r.codes[InvalidHeaderValue] == CodeEntry(NodeErrorClass(TypeError, InvalidHeaderValue), map[])
    ensures TrailerInvalid in r.messages && r.messages[TrailerInvalid] == Template("Trailers are invalid with this transfer encoding")
    ensures TrailerInvalid in r.codes && r.codes[TrailerInvalid] == CodeEntry(NodeErrorClass(Error, TrailerInvalid), map[])
    ensures InvalidHttpToken in r.messages && r.messages[InvalidHttpToken] == Template("%s must be a valid HTTP token [\"%s\"]")
    ensures InvalidHttpToken in r.codes && r.codes[InvalidHttpToken] == CodeEntry(NodeErrorClass(TypeError, InvalidHttpToken), map[])
    ensures MethodNotImplemented in r.messages && r.messages[MethodNotImplemented] == Template("The %s method is not implemented")
    ensures MethodNotImplemented in r.codes && r.codes[MethodNotImplemented] == CodeEntry(NodeErrorClass(Error, MethodNotImplemented), map[])
    ensures StreamCannotPipe in r.messages && r.messages[StreamCannotPipe] == Template("Cannot pipe, not readable")
    ensures StreamCannotPipe in r.codes && r.codes[StreamCannotPipe] == CodeEntry(NodeErrorClass(Error, StreamCannotPipe), map[])
    ensures StreamWriteAfterEnd in r.messages && r.messages[StreamWriteAfterEnd] == Template("write after end")
    ensures StreamWriteAfterEnd in r.codes && r.codes[StreamWriteAfterEnd] == CodeEntry(NodeErrorClass(Error, StreamWriteAfterEnd), map[])
  {
    LoadedEntry(table, r, 0);
    LoadedEntry(table, r, 1);
    LoadedEntry(table, r, 2);
    LoadedEntry(table, r, 3);
    LoadedEntry(table, r, 4);
    LoadedEntry(table, r, 5);
    LoadedEntry(table, r, 6);
    LoadedEntry(table, r, 7);
    LoadedEntry(table, r, 8);
    LoadedEntry(table, r, 9);
  }

  /** `new codes.ERR_HTTP_INVALID_STATUS_CODE(999)`: a range error whose
      message is the unformatted template followed by the argument. The
      expected string is written in the pieces `toString` assembles it
      from. */
  lemma InvalidStatusCodeExample(messages: map<Code, MessageSpec>, cls: NodeErrorClass)
    requires InvalidStatusCode in messages && messages[InvalidStatusCode] == Template("Invalid status code: %s")
    requires cls == NodeErrorClass(RangeError, InvalidStatusCode)
    ensures var e := Construct(messages, cls, [Num(999)]);
      && e.code == "ERR_HTTP_INVALID_STATUS_CODE"
      && Name(e) == "RangeError"
      && e.message == Parts([Str("Invalid status code: %s"), Num(999)])
      && ToString(e) == "RangeError" + " [" + "ERR_HTTP_INVALID_STATUS_CODE" + "]: "
           + ("Invalid status code: %s" + "," + "999")
  {
    assert NatToDecimal(999) == "999" by {
      assert NatToDecimal(9) == "9";
      assert NatToDecimal(99) == "99";
    }
    TemplateWithArgsToString(messages, cls, "Invalid status code: %s", [Num(999)]);
  }

  /** `new codes.ERR_INVALID_CHAR('header content', 'x-foo')`, and the same
      without the field: the field is quoted in brackets only when given.
      The expected strings are written in the pieces the message function
      and `toString` assemble them from. */
  lemma InvalidCharExample(messages: map<Code, MessageSpec>, cls: NodeErrorClass)
    requires InvalidChar in messages && messages[InvalidChar] == Computed(InvalidCharFn)
    requires cls == NodeErrorClass(TypeError, InvalidChar)
    ensures Construct(messages, cls, [Str("header content"), Str("x-foo")]).message
      == Plain(Str("Invalid character in " + "header content" + " [\"" + "x-foo" + "\"]"))
    ensures Construct(messages, cls, [Str("header content")]).message
      == Plain(Str("Invalid character in " + "header content"))
    ensures ToString(Construct(messages, cls, [Str("header content")]))
      == "TypeError" + " [" + "ERR_INVALID_CHAR" + "]: " + ("Invalid character in " + "header content")
  {
  }
}
