/** The layout of the registry's durable file, `{"links": [{"channels":
    [...]}, ...]}`, as a JSON value, with the reading the loader performs
    and the writing the saver performs (src/store.py:25, 35-37). Parsing
    text into a JSON value and printing it back are not part of the model. */
module StoreFile {
  import opened Lists
  import opened Links

  datatype Json =
    | JNull
    | JBool(b: bool)
    | JNumber(n: int)
    | JString(str: string)
    | JArray(items: seq<Json>)
    | JObject(fields: map<string, Json>)

  const LinksKey := "links"
  const ChannelsKey := "channels"

  function EncodeChannels(cs: seq<string>): (r: seq<Json>)
    ensures |r| == |cs| && forall k :: 0 <= k < |cs| ==> r[k] == JString(cs[k])
  {
    if cs == [] then [] else [JString(cs[0])] + EncodeChannels(cs[1..])
  }

  /** A link is written as its attribute dictionary, `{"channels": [...]}`. */
  function EncodeLink(l: Link): Json {
    JObject(map[ChannelsKey := JArray(EncodeChannels(l.channels))])
  }

  function EncodeLinks(links: seq<Link>): (r: seq<Json>)
    ensures |r| == |links| && forall k :: 0 <= k < |links| ==> r[k] == EncodeLink(links[k])
  {
    if links == [] then [] else [EncodeLink(links[0])] + EncodeLinks(links[1..])
  }

  /** The whole file written by a save. */
  function Encode(links: seq<Link>): (r: Json)
    ensures r.JObject? && r.fields.Keys == {LinksKey}
    ensures r.fields[LinksKey].JArray? && |r.fields[LinksKey].items| == |links|
  {
    JObject(map[LinksKey := JArray(EncodeLinks(links))])
  }

  /** A list of channel names: every entry must be a string. */
  function DecodeChannels(items: seq<Json>): Option<seq<string>> {
    if items == [] then Some([])
    else match (items[0], DecodeChannels(items[1..]))
      case (JString(s), Some(rest)) => Some([s] + rest)
      case _ => None
  }

  /** `Link(l['channels'])`: an object with a "channels" list; other keys
      are ignored. */
  function DecodeLink(j: Json): Option<Link> {
    match j
    case JObject(f) =>
      if ChannelsKey in f && f[ChannelsKey].JArray? then
        match DecodeChannels(f[ChannelsKey].items)
        case Some(cs) => Some(Link(cs))
        case None => None
      else None
    case _ => None
  }

  function DecodeLinks(items: seq<Json>): (r: Option<seq<Link>>)
    ensures r.Some? ==> |r.value| == |items|
  {
    if items == [] then Some([])
    else match (DecodeLink(items[0]), DecodeLinks(items[1..]))
      case (Some(l), Some(rest)) => Some([l] + rest)
      case _ => None
  }

  /** What a load reads from the file: the list under "links", in order. */
  function Decode(j: Json): (r: Option<seq<Link>>)
    ensures r.Some? ==> j.JObject? && LinksKey in j.fields && j.fields[LinksKey].JArray?
    ensures r.Some? ==> |r.value| == |j.fields[LinksKey].items|
  {
    match j
    case JObject(f) =>
      if LinksKey in f && f[LinksKey].JArray? then DecodeLinks(f[LinksKey].items) else None
    case _ => None
  }

  lemma {:induction false} DecodeEncodeChannels(cs: seq<string>)
    ensures DecodeChannels(EncodeChannels(cs)) == Some(cs)
  {
    if cs != [] {
      var e := EncodeChannels(cs);
      assert e[1..] == EncodeChannels(cs[1..]);
      DecodeEncodeChannels(cs[1..]);
      assert [cs[0]] + cs[1..] == cs;
    }
  }

  lemma DecodeEncodeLink(l: Link)
    ensures DecodeLink(EncodeLink(l)) == Some(l)
  {
    DecodeEncodeChannels(l.channels);
  }

  lemma {:induction false} DecodeEncodeLinks(links: seq<Link>)
    ensures DecodeLinks(EncodeLinks(links)) == Some(links)
  {
    if links != [] {
      var e := EncodeLinks(links);
      assert e[1..] == EncodeLinks(links[1..]);
      DecodeEncodeLink(links[0]);
      DecodeEncodeLinks(links[1..]);
      assert [links[0]] + links[1..] == links;
    }
  }

  /** Saving and then loading gives back exactly the same groups, in the
      same order, each with the same rooms in the same order. */
  lemma DecodeEncode(links: seq<Link>)
    ensures Decode(Encode(links)) == Some(links)
  {
    DecodeEncodeLinks(links);
  }
}
