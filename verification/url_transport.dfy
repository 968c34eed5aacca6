/**
 * The transport selector: one address string names the backend and the
 * address handed to it. The backend id runs up to the first `+`, `/` or
 * `:`. A `+` is consumed (`zenoh+tcp/host:7447` hands `tcp/host:7447` to
 * zenoh); a `/` or `:` belongs to the backend's own URL form
 * (`nats://host:4222` is handed over whole).
 */
module UrlTransport {
  import opened Results

  predicate IsSeparator(c: char) {
    c == '+' || c == '/' || c == ':'
  }

  predicate NoSeparator(s: string) {
    forall i :: 0 <= i < |s| ==> !IsSeparator(s[i])
  }

  /** Position of the first `+`, `/` or `:` in the address, if any. */
  function FirstSeparator(url: string): (r: Option<nat>)
    ensures r.None? <==> NoSeparator(url)
    ensures r.Some? ==> r.value < |url| && IsSeparator(url[r.value]) && NoSeparator(url[..r.value])
    decreases |url|
  {
    if url == [] then None
    else if IsSeparator(url[0]) then Some(0)
    else match FirstSeparator(url[1..])
      case None => None
      case Some(p) =>
        assert url[..p + 1] == [url[0]] + url[1..][..p];
        Some(p + 1)
  }

  /** `url_transport::parse`: splits an address into (backend id, remaining address). */
  function Parse(url: string): (r: (string, string))
    ensures r.0 <= url && NoSeparator(r.0)
    ensures NoSeparator(url) ==> r == (url, "")
    ensures !NoSeparator(url) ==> |r.0| < |url| && IsSeparator(url[|r.0|])
    ensures !NoSeparator(url) && url[|r.0|] == '+' ==> r.0 + "+" + r.1 == url
    ensures !NoSeparator(url) && url[|r.0|] != '+' ==> r.1 == url
  {
    match FirstSeparator(url)
    case None => (url, "")
    case Some(p) =>
      if url[p] == '+' then
        assert url == url[..p] + "+" + url[p + 1..];
        (url[..p], url[p + 1..])
      else (url[..p], url)
  }

  /**
   * An independent description of a correct split: the id is a
   * separator-free prefix that stops either at the end of the address or
   * at a separator; the remainder follows from which separator it is.
   */
  ghost predicate Splits(url: string, id: string, rest: string) {
    && id <= url
    && NoSeparator(id)
    && if |id| == |url| then rest == ""
       else IsSeparator(url[|id|]) && rest == (if url[|id|] == '+' then url[|id| + 1..] else url)
  }

  /** `Parse` produces a correct split, and it is the only one. */
  lemma ParseIsTheSplit(url: string, id: string, rest: string)
    ensures Splits(url, Parse(url).0, Parse(url).1)
    ensures Splits(url, id, rest) ==> (id, rest) == Parse(url)
  {
    var r := Parse(url);
    if Splits(url, id, rest) {
      assert id == url[..|id|] && r.0 == url[..|r.0|];
    }
  }

  /** Composing `id+address` and selecting gives back both parts. */
  lemma PlusRoundTrip(id: string, address: string)
    requires NoSeparator(id)
    ensures Parse(id + "+" + address) == (id, address)
  {
    var url := id + "+" + address;
    assert url[|id|] == '+';
    assert !NoSeparator(url);
    assert id <= url;
    ParseIsTheSplit(url, id, address);
    assert url[|id| + 1..] == address;
  }

  /** A native URL `id:...` or `id/...` is handed to the backend unchanged. */
  lemma NativeUrlKept(id: string, sep: char, tail: string)
    requires NoSeparator(id) && (sep == '/' || sep == ':')
    ensures Parse(id + [sep] + tail) == (id, id + [sep] + tail)
  {
    var url := id + [sep] + tail;
    assert url[|id|] == sep;
    assert id <= url;
    ParseIsTheSplit(url, id, url);
  }

  /** Only the first separator decides: everything after it is left for the backend. */
  lemma LaterSeparatorsKept(id: string, tail: string)
    requires NoSeparator(id)
    ensures Parse(id + "+" + tail).1 == tail
    ensures Parse(id + ":" + tail).1 == id + ":" + tail
    ensures Parse(id + "/" + tail).1 == id + "/" + tail
  {
    PlusRoundTrip(id, tail);
    NativeUrlKept(id, ':', tail);
    NativeUrlKept(id, '/', tail);
  }

  /** Unit-test vectors: a bare backend name. */
  lemma ParseVectorsBare()
    ensures Parse("zenoh") == ("zenoh", "")
    ensures Parse("nats") == ("nats", "")
    ensures Parse("") == ("", "")
  {
    assert NoSeparator("zenoh");
    assert NoSeparator("nats");
  }

  /** Unit-test vector: a native NATS URL is handed over whole. */
  lemma ParseVectorNatsUrl()
    ensures Parse("nats://localhost:4222") == ("nats", "nats://localhost:4222")
  {
    NativeUrlKept("nats", ':', "//localhost:4222");
    assert "nats" + [':'] + "//localhost:4222" == "nats://localhost:4222";
  }

  /** Unit-test vector: a native websocket URL is handed over whole. */
  lemma ParseVectorWsUrl()
    ensures Parse("ws://localhost:8080") == ("ws", "ws://localhost:8080")
  {
    NativeUrlKept("ws", ':', "//localhost:8080");
    assert "ws" + [':'] + "//localhost:8080" == "ws://localhost:8080";
  }

  /** Unit-test vector: a `+` prefix selects zenoh and is consumed. */
  lemma ParseVectorZenohPrefix()
    ensures Parse("zenoh+tcp/localhost:7447") == ("zenoh", "tcp/localhost:7447")
  {
    var url := "zenoh+tcp/localhost:7447";
    assert url[5] == '+' && url[..5] == "zenoh" && NoSeparator(url[..5]);
    assert url[6..] == "tcp/localhost:7447";
    ParseIsTheSplit(url, "zenoh", "tcp/localhost:7447");
  }

  /** Unit-test vector: later separators stay in the NATS address. */
  lemma ParseVectorNatsPrefix()
    ensures Parse("nats+ws://localhost:4222") == ("nats", "ws://localhost:4222")
  {
    var url := "nats+ws://localhost:4222";
    assert url[4] == '+' && url[..4] == "nats" && NoSeparator(url[..4]);
    assert url[5..] == "ws://localhost:4222";
    ParseIsTheSplit(url, "nats", "ws://localhost:4222");
  }

  /** Unit-test vector: the centrifuge websocket address keeps its path. */
  lemma ParseVectorCfjPrefix()
    ensures Parse("cfj+ws://localhost:8000/connection/websocket") == ("cfj", "ws://localhost:8000/connection/websocket")
  {
    var url := "cfj+ws://localhost:8000/connection/websocket";
    var rest := "ws://localhost:8000/connection/websocket";
    assert |url| == 44 && |rest| == 40;
    assert url[0] == 'c' && url[1] == 'f' && url[2] == 'j';
    assert url[..3] == "cfj";
    assert url[3] == '+';
    assert url[4..] == rest;
    assert NoSeparator("cfj");
    assert Splits(url, "cfj", rest);
    ParseIsTheSplit(url, "cfj", rest);
  }

  /** Unit-test vectors: a separator alone. */
  lemma ParseVectorsSeparatorOnly()
    ensures Parse("+") == ("", "")
    ensures Parse("/") == ("", "/")
    ensures Parse(":") == ("", ":")
  {
    PlusRoundTrip("", "");
    assert "" + "+" + "" == "+";
    NativeUrlKept("", '/', "");
    assert "" + ['/'] + "" == "/";
    NativeUrlKept("", ':', "");
    assert "" + [':'] + "" == ":";
  }

  /**
   * The disabled vectors for an address with an empty remainder: the code
   * hands the whole text on, so the backend receives `zenoh:` and `nats://`.
   */
  lemma ParseVectorsEmptyAddress()
    ensures Parse("zenoh:") == ("zenoh", "zenoh:")
    ensures Parse("nats://") == ("nats", "nats://")
  {
    NativeUrlKept("zenoh", ':', "");
    assert "zenoh" + [':'] + "" == "zenoh:";
    NativeUrlKept("nats", ':', "//");
    assert "nats" + [':'] + "//" == "nats://";
  }
}
