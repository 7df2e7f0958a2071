/** The immutable request, responses, and text as bytes. */
module Http {
  import opened Wrappers

  newtype byte = x: int | 0 <= x < 256

  /** Text of a URL: UTF-8 bytes. */
  type Text = seq<byte>

  /** The standard header names the model mentions, and all others. */
  datatype HeaderName =
    | AllowOrigin       // Access-Control-Allow-Origin
    | AllowMethods      // Access-Control-Allow-Methods
    | AllowHeaders      // Access-Control-Allow-Headers
    | AllowCredentials  // Access-Control-Allow-Credentials
    | ExposeHeaders     // Access-Control-Expose-Headers
    | MaxAge            // Access-Control-Max-Age
    | RequestMethod     // Access-Control-Request-Method
    | RequestHeaders    // Access-Control-Request-Headers
    | ContentType
    | Origin
    | Vary
    | OtherName(text: string)

  datatype Header = Header(name: HeaderName, value: string)

  datatype Request = Request(verb: string, path: Text, headers: seq<Header>) {
    /** `Request::header`: the first value of the name. */
    function HeaderOf(name: HeaderName): Option<string> {
      var all := HeaderAll(name);
      if all == [] then None else Some(all[0])
    }

    /** `Request::header_all`. */
    function HeaderAll(name: HeaderName): seq<string> { ValuesOf(headers, name) }
  }

  function ValuesOf(headers: seq<Header>, name: HeaderName): seq<string> {
    if headers == [] then []
    else if headers[0].name == name then [headers[0].value] + ValuesOf(headers[1..], name)
    else ValuesOf(headers[1..], name)
  }

  /** The value of a header is that of its first entry; without one there is none. */
  lemma {:induction false} HeaderIsFirst(request: Request, name: HeaderName, k: nat)
    requires k <= |request.headers|
    requires forall j :: 0 <= j < k ==> request.headers[j].name != name
    requires k < |request.headers| ==> request.headers[k].name == name
    ensures request.HeaderOf(name) == if k < |request.headers| then Some(request.headers[k].value) else None
    decreases k
  {
    if k > 0 { HeaderIsFirst(request.(headers := request.headers[1..]), name, k - 1); }
  }

  /** All values of a header are those of its entries, in order. */
  lemma {:induction false} ValuesOfConcat(a: seq<Header>, b: seq<Header>, name: HeaderName)
    ensures ValuesOf(a + b, name) == ValuesOf(a, name) + ValuesOf(b, name)
  {
    if a == [] {
      assert a + b == b;
    } else {
      ValuesOfConcat(a[1..], b, name);
      assert (a + b)[1..] == a[1..] + b;
    }
  }

  /** The part of a response the model needs: status and headers, not the body. */
  datatype Response = Response(status: nat, headers: seq<Header>)
}
