/** The menu front end of the toolkit: the file-name sanitiser, the name of
    the IP-information output file and the validation of the menu choice
    that decides which tool runs. The prompts, the screen clearing and the
    tools themselves are not modelled. */
module Toolkit {
  import opened Strings
  import opened Wrappers

  /** `name.replace(':', '_')`: every colon becomes an underscore, nothing
      else changes. */
  function SafeFilename(name: string): (r: string)
    ensures ':' !in r
    ensures |r| == |name|
    ensures forall i :: 0 <= i < |name| ==> r[i] == if name[i] == ':' then '_' else name[i]
  {
    ReplaceCharAt(name, ':', '_');
    ReplaceCharRemoves(name, ':', '_');
    ReplaceAll(name, ":", "_")
  }

  /** A name without colons is already safe. */
  lemma SafeFilenameIdentity(name: string)
    requires ':' !in name
    ensures SafeFilename(name) == name
  {
    assert forall i :: 0 <= i < |name| ==> SafeFilename(name)[i] == name[i];
  }

  /** Sanitising twice is sanitising once. */
  lemma SafeFilenameIdempotent(name: string)
    ensures SafeFilename(SafeFilename(name)) == SafeFilename(name)
  {
    SafeFilenameIdentity(SafeFilename(name));
  }

  /** The file the IP-information tool writes: the sanitised address
      followed by `_IP_info.json`. */
  function IpInfoFileName(ip: string): (r: string)
    ensures EndsWith(r, "_IP_info.json")
    ensures ':' !in r
    ensures |r| == |ip| + |"_IP_info.json"| && r[..|ip|] == SafeFilename(ip)
  {
    var r := SafeFilename(ip) + "_IP_info.json";
    assert r[|r| - |"_IP_info.json"|..] == "_IP_info.json";
    r
  }

  /** The 26 tools of the menu, in menu order. */
  datatype MenuAction =
    | IpInfo | PortScanner | WhoisInfo | Crawler | HeaderInfo | RobotInfo
    | Sitemap | SslCertificate | AsnPrefixes | AsnPeers | AsnUpstreams
    | AsnDownstreams | AsnIxs | IpPrefix | AsnInfo | IxInfo | Search
    | ARecords | CnameRecords | MxRecords | SoaRecords | NsRecords
    | PtrRecords | SrvRecords | TxtRecords | IpLocation

  /** The keys of the description table: exactly the texts `'1'` to `'26'`. */
  const MenuKeys: set<string> := {
    "1", "2", "3", "4", "5", "6", "7", "8", "9", "10", "11", "12", "13",
    "14", "15", "16", "17", "18", "19", "20", "21", "22", "23", "24", "25", "26"
  }

  /** The key a tool is listed under. */
  function KeyOf(a: MenuAction): string {
    match a
    case IpInfo => "1"
    case PortScanner => "2"
    case WhoisInfo => "3"
    case Crawler => "4"
    case HeaderInfo => "5"
    case RobotInfo => "6"
    case Sitemap => "7"
    case SslCertificate => "8"
    case AsnPrefixes => "9"
    case AsnPeers => "10"
    case AsnUpstreams => "11"
    case AsnDownstreams => "12"
    case AsnIxs => "13"
    case IpPrefix => "14"
    case AsnInfo => "15"
    case IxInfo => "16"
    case Search => "17"
    case ARecords => "18"
    case CnameRecords => "19"
    case MxRecords => "20"
    case SoaRecords => "21"
    case NsRecords => "22"
    case PtrRecords => "23"
    case SrvRecords => "24"
    case TxtRecords => "25"
    case IpLocation => "26"
  }

  /** The `if`/`elif` chain that runs the chosen tool; it is reached only
      for a key of the description table. */
  function Dispatch(choice: string): Option<MenuAction> {
    if choice == "1" then Some(IpInfo)
    else if choice == "2" then Some(PortScanner)
    else if choice == "3" then Some(WhoisInfo)
    else if choice == "4" then Some(Crawler)
    else if choice == "5" then Some(HeaderInfo)
    else if choice == "6" then Some(RobotInfo)
    else if choice == "7" then Some(Sitemap)
    else if choice == "8" then Some(SslCertificate)
    else if choice == "9" then Some(AsnPrefixes)
    else if choice == "10" then Some(AsnPeers)
    else if choice == "11" then Some(AsnUpstreams)
    else if choice == "12" then Some(AsnDownstreams)
    else if choice == "13" then Some(AsnIxs)
    else if choice == "14" then Some(IpPrefix)
    else if choice == "15" then Some(AsnInfo)
    else if choice == "16" then Some(IxInfo)
    else if choice == "17" then Some(Search)
    else if choice == "18" then Some(ARecords)
    else if choice == "19" then Some(CnameRecords)
    else if choice == "20" then Some(MxRecords)
    else if choice == "21" then Some(SoaRecords)
    else if choice == "22" then Some(NsRecords)
    else if choice == "23" then Some(PtrRecords)
    else if choice == "24" then Some(SrvRecords)
    else if choice == "25" then Some(TxtRecords)
    else if choice == "26" then Some(IpLocation)
    else None
  }

  /** One round of the menu: a choice that is not a key of the description
      table ends the round before anything runs; otherwise the chain picks
      the tool. */
  function MenuRound(choice: string): (r: Option<MenuAction>)
    ensures r.Some? <==> choice in MenuKeys
  {
    if choice !in MenuKeys then None else Dispatch(choice)
  }

  /** Every tool is reachable, through its own key and no other. */
  lemma MenuRoundKeyOf(a: MenuAction)
    ensures KeyOf(a) in MenuKeys
    ensures MenuRound(KeyOf(a)) == Some(a)
  {
  }

  /** A choice that selects a tool is that tool's key. */
  lemma MenuRoundOnlyKey(choice: string, a: MenuAction)
    requires MenuRound(choice) == Some(a)
    ensures choice == KeyOf(a)
  {
    if choice == "1" {
    } else if choice == "2" {
    } else if choice == "3" {
    } else if choice == "4" {
    } else if choice == "5" {
    } else if choice == "6" {
    } else if choice == "7" {
    } else if choice == "8" {
    } else if choice == "9" {
    } else if choice == "10" {
    } else if choice == "11" {
    } else if choice == "12" {
    } else if choice == "13" {
    } else if choice == "14" {
    } else if choice == "15" {
    } else if choice == "16" {
    } else if choice == "17" {
    } else if choice == "18" {
    } else if choice == "19" {
    } else if choice == "20" {
    } else if choice == "21" {
    } else if choice == "22" {
    } else if choice == "23" {
    } else if choice == "24" {
    } else if choice == "25" {
    } else if choice == "26" {
    } else {
      assert false;
    }
  }

  /** Two keys never select the same tool. */
  lemma KeyOfInjective(a: MenuAction, b: MenuAction)
    requires KeyOf(a) == KeyOf(b)
    ensures a == b
  {
    MenuRoundKeyOf(a);
    MenuRoundKeyOf(b);
  }

  /** The check is an exact text comparison: a leading zero, a blank or a
      number outside the range is refused. */
  lemma MenuRoundRejects()
    ensures MenuRound("01") == None
    ensures MenuRound(" 1") == None
    ensures MenuRound("1 ") == None
    ensures MenuRound("0") == None
    ensures MenuRound("27") == None
  {
  }
}
