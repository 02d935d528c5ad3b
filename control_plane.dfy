/**
 * The control plane: one static address, overwritten by POST /ip and read by three GET
 * handlers. Hosting, routing and JSON binding are not modelled; each handler is a method.
 */
module ControlPlane {
  import opened Wrappers
  import opened Ipv4

  const INITIAL_ADDRESS: string := "0.0.0.0"
  const HOME_PREFIX: string := "hi->"
  const REDIRECT_PREFIX: string := "<script>location.replace(\"http://"
  const SERVER_PORT: string := ":20012"
  const REDIRECT_SUFFIX: string := "/\")</script>"

  /** The body of POST /ip; either property is null when the JSON does not carry it. */
  datatype UpdateAdress = UpdateAdress(ip: Option<string>, id: Option<string>)

  /** What C# string concatenation makes of a string that may be null. */
  function Text(s: Option<string>): (t: string)
    ensures s.Some? ==> t == s.value
    ensures s.None? ==> t == ""
  {
    match s
    case None => ""
    case Some(v) => v
  }

  /** GET "": the address after a fixed greeting. */
  function HomePage(adress: Option<string>): (page: string)
    ensures |page| == |HOME_PREFIX| + |Text(adress)|
    ensures page[..|HOME_PREFIX|] == HOME_PREFIX && page[|HOME_PREFIX|..] == Text(adress)
  {
    HOME_PREFIX + Text(adress)
  }

  /** GET /server: a page whose script sends the browser to port 20012 of the address. */
  function ServerPage(adress: Option<string>): (page: string)
    ensures |page| == |REDIRECT_PREFIX| + |Text(adress)| + |SERVER_PORT| + |REDIRECT_SUFFIX|
    ensures page[..|REDIRECT_PREFIX|] == REDIRECT_PREFIX
    ensures page[|page| - |REDIRECT_SUFFIX|..] == REDIRECT_SUFFIX
    ensures page[|REDIRECT_PREFIX|..|page| - |REDIRECT_SUFFIX|] == Text(adress) + SERVER_PORT
  {
    var host := Text(adress) + SERVER_PORT;
    var page := REDIRECT_PREFIX + host + REDIRECT_SUFFIX;
    assert page[|REDIRECT_PREFIX|..|page| - |REDIRECT_SUFFIX|] == host;
    page
  }

  /** The greeting determines the address it shows. */
  lemma HomePageDeterminesAddress(a: Option<string>, b: Option<string>)
    ensures HomePage(a) == HomePage(b) <==> Text(a) == Text(b)
  {
    if HomePage(a) == HomePage(b) {
      assert Text(a) == HomePage(a)[|HOME_PREFIX|..];
    }
  }

  /** The redirect page determines the address it sends the browser to. */
  lemma ServerPageDeterminesAddress(a: Option<string>, b: Option<string>)
    ensures ServerPage(a) == ServerPage(b) <==> Text(a) == Text(b)
  {
    if ServerPage(a) == ServerPage(b) {
      var p := ServerPage(a);
      var host := p[|REDIRECT_PREFIX|..|p| - |REDIRECT_SUFFIX|];
      assert Text(a) == host[..|host| - |SERVER_PORT|];
      assert Text(b) == host[..|host| - |SERVER_PORT|];
    }
  }

  /** GET /ip on the initial address answers four zero bytes. */
  lemma InitialAddressParses()
    ensures ParseIp(Some(INITIAL_ADDRESS)) == Success([0, 0, 0, 0])
  {
    assert ParseByte("0") == Success(0);
    ParseWellFormed("0", "0", "0", "0");
    assert "0" + "." + "0" + "." + "0" + "." + "0" == INITIAL_ADDRESS;
  }

  /** The program's static state and its handlers. */
  class Program {
    var adress: Option<string>

    constructor ()
      ensures adress == Some(INITIAL_ADDRESS)
    {
      adress := Some(INITIAL_ADDRESS);
    }

    /** POST /ip: store the posted address; the id is ignored. */
    method PostIp(request: UpdateAdress)
      modifies this
      ensures adress == request.ip
    {
      adress := request.ip;
    }

    /** GET /ip: the stored address as four bytes, or the exception that fails the request. */
    method GetIp() returns (r: Result<seq<byte>, ParseError>)
      ensures r == ParseIp(adress)
      ensures r.Success? ==> |r.value| == 4
    {
      var bytes := ConvertIpToBytes(adress);
      match bytes
      case Success(a) => r := Success(a[..]);
      case Failure(e) => r := Failure(e);
    }

    /** GET "". */
    method GetHome() returns (body: string)
      ensures body == HomePage(adress)
    {
      body := HOME_PREFIX + Text(adress);
    }

    /** GET /server. */
    method GetServer() returns (html: string)
      ensures html == ServerPage(adress)
    {
      html := REDIRECT_PREFIX + (Text(adress) + SERVER_PORT) + REDIRECT_SUFFIX;
    }
  }

  /** A client: the initial address, then an update, as the handlers report them. */
  method AddressScenario()
  {
    var program := new Program();
    var first := program.GetIp();
    InitialAddressParses();
    assert first == Success([0, 0, 0, 0]);
    program.PostIp(UpdateAdress(Some("10.0.0.7"), None));
    var home := program.GetHome();
    assert home == HOME_PREFIX + "10.0.0.7";
    program.PostIp(UpdateAdress(None, Some("peer")));
    var missing := program.GetIp();
    assert missing == Failure(NullReference);
    home := program.GetHome();
    assert home == HOME_PREFIX;
  }
}
