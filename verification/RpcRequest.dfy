/**
  The request object and the calls that build it, proved against `RpcWriter`. Its
  buffer is the sequence of the bytes written so far; a call that would not fit
  the buffer is not part of this model.
 */
module RpcRequest {
  import opened JsonTables
  import opened Grammar
  import opened Printer
  import opened RpcReader
  import opened RpcWriter

  /** The id that stands for none. */
  const NO_ID: nat := 0xffff_ffff

  function IdOf(id: nat): Option<nat> { if id == NO_ID then None else Some(id) }

  class Request {
    var msg: Bytes
    const msgbufsz: nat
    const serviceName: Bytes
    const methodName: Bytes
    const id: Option<Bytes>

    /** Room for `n` more bytes and what C's formatting needs after them. */
    predicate Fits(n: int)
      reads `msg
    {
      |msg| + n < msgbufsz - 1
    }

    /** `json_rpc_req_init`. */
    constructor (service: Bytes, name: Bytes, id: nat)
      requires id <= NO_ID && |RequestHead(service, name, IdOf(id))| < JSONRPC_REQ_SZ_MAX - 1
      ensures msg == RequestHead(service, name, IdOf(id)) && msgbufsz == JSONRPC_REQ_SZ_MAX
      ensures serviceName == service && methodName == name
      ensures this.id == if id == NO_ID then None else Some(Decimal(id))
    {
      msgbufsz := JSONRPC_REQ_SZ_MAX;
      serviceName, methodName := service, name;
      if id == NO_ID {
        msg := HEAD_VERSION + service + [DOT] + name + [QUOTE] + [] + HEAD_PARAMS;
        this.id := None;
      } else {
        msg := HEAD_VERSION + service + [DOT] + name + [QUOTE] + (HEAD_ID + Decimal(id)) + HEAD_PARAMS;
        this.id := Some(Decimal(id));
      }
    }

    /** `json_rpc_is_comma_needed` and what every scalar append does about it. */
    method PutComma()
      modifies this`msg
      requires Fits(|Comma(msg)|)
      ensures msg == old(msg) + Comma(old(msg))
    {
      if msg != [] {
        var prev := msg[|msg| - 1];
        if prev != LCURB && prev != LSQRB && prev != COLON {
          msg := msg + [COMMA];
        }
      }
    }

    /** `json_rpc_append_int` and `json_rpc_append_llint`. */
    method AppendInt(name: Bytes, val: int)
      requires Fits(|AppendNamed(msg, name, NumberText(IntNumber(val)))| - |msg|)
      modifies this`msg
      ensures msg == AppendParam(old(msg), ScalarParam(Field(name, IntVal(val))))
    {
      PutComma();
      msg := msg + [QUOTE] + name + [QUOTE, COLON] + NumberText(IntNumber(val));
    }

    /** `json_rpc_append_bool`. */
    method AppendBool(name: Bytes, val: bool)
      requires Fits(|AppendNamed(msg, name, ValueText(BoolVal(val)))| - |msg|)
      modifies this`msg
      ensures msg == AppendParam(old(msg), ScalarParam(Field(name, BoolVal(val))))
    {
      PutComma();
      msg := msg + [QUOTE] + name + [QUOTE, COLON] + NameText(if val then JsonTrue else JsonFalse);
    }

    /** `json_rpc_append_null`. */
    method AppendNull(name: Bytes)
      requires Fits(|AppendNamed(msg, name, NameText(JsonNull))| - |msg|)
      modifies this`msg
      ensures msg == AppendParam(old(msg), ScalarParam(Field(name, NullVal)))
    {
      PutComma();
      msg := msg + [QUOTE] + name + [QUOTE, COLON] + NameText(JsonNull);
    }

    /** `json_rpc_append_strn`: the string goes through a fresh printer, for its escapes. */
    method AppendStrn(name: Bytes, val: Bytes)
      requires Fits(|AppendNamed(msg, name, StringText(val))| - |msg|)
      modifies this`msg
      ensures msg == AppendParam(old(msg), ScalarParam(Field(name, StrVal(val))))
    {
      hide Escaped;
      PutComma();
      msg := msg + [QUOTE] + name + [QUOTE, COLON];
      var printer := new JsonPrinter();
      printer.PrintMode(JsonString, val, false);
      assert printer.output == StringText(val);
      msg := msg + printer.output;
    }

    /** `json_rpc_append_vargs`: a printer that starts from what the last byte says. */
    method AppendVargs(evs: seq<Event>)
      requires Fits(|AppendEvents(msg, evs)| - |msg|)
      modifies this`msg
      ensures msg == AppendEvents(old(msg), evs)
    {
      var printer := new JsonPrinter();
      var prev: int := if |msg| > 0 then msg[|msg| - 1] else -1;
      printer.enterObject := prev == LCURB || prev == LSQRB;
      printer.afterkey := prev == COLON;
      hide Print;
      assert printer.State() == StateAfter(msg);
      var i := 0;
      while i < |evs|
        invariant 0 <= i <= |evs| && fresh(printer) && msg == old(msg)
        invariant Printed(printer.State(), printer.output) == PrintAll(StateAfter(msg), evs[..i], Compact)
      {
        assert evs[..i + 1][..i] == evs[..i];
        printer.PrintMode(evs[i].kind, evs[i].data, false);
        i := i + 1;
      }
      assert evs[..|evs|] == evs;
      msg := msg + printer.output;
    }

    /** `json_rpc_req_finalize`. */
    method Finalize()
      requires Fits(2)
      modifies this`msg
      ensures msg == old(msg) + [RCURB, RCURB]
    {
      msg := msg + [RCURB, RCURB];
    }
  }

  /** Appending only adds. */
  lemma {:induction false} AppendsGrow(msg: Bytes, params: seq<Param>, k: nat)
    requires k <= |params|
    ensures |AppendParams(msg, params[..k])| <= |AppendParams(msg, params)|
    decreases |params| - k
  {
    hide AppendParam;
    if k == |params| {
      assert params[..k] == params;
    } else {
      AppendsGrow(msg, params, k + 1);
      assert params[..k + 1][..k] == params[..k];
      AppendGrows(AppendParams(msg, params[..k]), params[k]);
    }
  }

  lemma AppendGrows(msg: Bytes, p: Param)
    ensures |msg| <= |AppendParam(msg, p)|
  {
    hide ValueText, PrintAll;
  }

  /** A client that builds a request: one call a parameter. */
  method Build(service: Bytes, name: Bytes, id: nat, params: seq<Param>) returns (r: Request)
    requires id <= NO_ID
    requires |RequestText(service, name, IdOf(id), params)| < JSONRPC_REQ_SZ_MAX - 1
    ensures fresh(r) && r.msg == RequestText(service, name, IdOf(id), params)
    ensures r.serviceName == service && r.methodName == name
  {
    hide AppendParam, AppendEvents, RequestHead, EventsOf, ParamMember;
    ghost var head := RequestHead(service, name, IdOf(id));
    AppendsGrow(head, params, 0);
    r := new Request(service, name, id);
    var i := 0;
    while i < |params|
      invariant 0 <= i <= |params| && fresh(r)
      invariant r.msg == AppendParams(head, params[..i])
    {
      AppendsGrow(head, params, i + 1);
      assert params[..i + 1][..i] == params[..i];
      AppendOne(r, params[i]);
      i := i + 1;
    }
    assert params[..|params|] == params;
    r.Finalize();
  }

  method AppendOne(r: Request, p: Param)
    requires r.Fits(|AppendParam(r.msg, p)| - |r.msg|)
    modifies r`msg
    ensures r.msg == AppendParam(old(r.msg), p)
  {
    hide AppendEvents, Escaped, Decimal;
    match p
    case ScalarParam(Field(name, IntVal(n))) => r.AppendInt(name, n);
    case ScalarParam(Field(name, BoolVal(b))) => r.AppendBool(name, b);
    case ScalarParam(Field(name, NullVal)) => r.AppendNull(name);
    case ScalarParam(Field(name, StrVal(s))) => r.AppendStrn(name, s);
    case ArrayParam(_, _) => r.AppendVargs(EventsOf(ParamMember(p)));
  }
}
