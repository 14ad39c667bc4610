/**
 * The controller's settings store: network parameters, the keyer parameter
 * sets offered in the mix-mode menu and the resolutions offered in the
 * resolution menu, with factory defaults and a rebuild from a parsed
 * settings file.
 */
module Settings {
  import opened TVOneCodes
  import opened Wrappers

  // Positions of the keyer parameters within a set.
  const MinY: int := 0
  const MaxY: int := 1
  const MinU: int := 2
  const MaxU: int := 3
  const MinV: int := 4
  const MaxV: int := 5
  const KeyerParamCount: int := 6

  // What a lookup of a missing entry yields.
  const FailString: string := "Failed to read"
  const FailInt: int := -1

  // The reserved first keyer set, which the keyer editor tweaks.
  const CurrentKeyName: string := "Key - Current"
  const CurrentKeySet: seq<int> := [0, 18, 128, 129, 128, 129]

  datatype IpAddr = IpAddr(a: int, b: int, c: int, d: int)

  datatype NetworkSettings = NetworkSettings(
    oscDHCP: bool,
    oscControllerAddress: IpAddr,
    oscControllerPort: int,
    oscControllerSubnetMask: IpAddr,
    oscControllerGateway: IpAddr,
    oscControllerDNS: IpAddr,
    oscSendAddress: IpAddr,
    oscSendPort: int,
    artNetControllerAddress: IpAddr,
    artNetBroadcastAddress: IpAddr,
    dmxInChannelXFade: int,
    dmxInChannelFadeUp: int,
    dmxOutChannelXFade: int,
    dmxOutChannelFadeUp: int)

  const DefaultNetwork: NetworkSettings := NetworkSettings(
    false, IpAddr(10, 0, 0, 2), 10000, IpAddr(255, 255, 255, 0), IpAddr(10, 0, 0, 1), IpAddr(10, 0, 0, 1),
    IpAddr(255, 255, 255, 255), 10000,
    IpAddr(2, 0, 0, 100), IpAddr(2, 255, 255, 255),
    0, 1, 0, 1)

  const DefaultKeyerParamNames: seq<string> := [CurrentKeyName, "Lumakey", "Chromakey - Blue"]
  const DefaultKeyerParamSets: seq<seq<int>> := [CurrentKeySet, [0, 18, 128, 129, 128, 129], [30, 35, 237, 242, 114, 121]]

  const DefaultResolutionNames: seq<string> := [
    "VGA (640x480) @ 60Hz",
    "SVGA (800x600) @ 60Hz",
    "XGA (1024x768) @ 60Hz",
    "WSXGA+ (1680x1050) @ 60Hz",
    "WUXGA (1920x1200) @ 60Hz",
    "720p HD (1280x720) @ 60Hz",
    "1080p (1920x1080) @ 60Hz",
    "Dual Head SVGA (1600x600) @ 60Hz",
    "Dual Head XGA (2048x768) @ 60 Hz",
    "Triple Head VGA (1920x480) @ 60Hz"]
  const DefaultResolutionIndexes: seq<int> := [
    ResolutionVGA, ResolutionSVGA, ResolutionXGAp60, ResolutionWSXGAPLUSp60, ResolutionWUXGAp60,
    Resolution720p60, Resolution1080p60,
    ResolutionDualHeadSVGAp60, ResolutionDualHeadXGAp60, ResolutionTripleHeadVGAp60]
  const DefaultResolutionEDIDIndexes: seq<int> := [6, 6, 6, 6, 6, 5, 5, 4, 4, 4]

  /**
   * One [KeyN] or [ResolutionN] section of the settings file: its entries as
   * text, and those entries that read as integers.
   */
  datatype IniSection = IniSection(strings: map<string, string>, ints: map<string, int>)

  /**
   * One entry of the [OSC], [ArtNet] or [DMX] sections: its text, read by a
   * boolean lookup, and the number an integer lookup reads from it.
   */
  datatype IniEntry = IniEntry(text: string, number: int)

  /**
   * The entries of the network block, each None when missing. An address is
   * None also when its text does not read as an address (the null address).
   */
  datatype NetworkEntries = NetworkEntries(
    oscDHCP: Option<string>,
    oscControllerAddress: Option<IpAddr>,
    oscControllerPort: Option<IniEntry>,
    oscControllerSubnetMask: Option<IpAddr>,
    oscControllerGateway: Option<IpAddr>,
    oscControllerDNS: Option<IpAddr>,
    oscSendAddress: Option<IpAddr>,
    oscSendPort: Option<IniEntry>,
    artNetControllerAddress: Option<IpAddr>,
    artNetBroadcastAddress: Option<IpAddr>,
    dmxInChannelXFade: Option<IniEntry>,
    dmxInChannelFadeUp: Option<IniEntry>,
    dmxOutChannelXFade: Option<IniEntry>,
    dmxOutChannelFadeUp: Option<IniEntry>)

  /** A parsed settings file: the network block's entries, and the sections indexed by their number N. */
  datatype IniDict = IniDict(network: NetworkEntries, keySections: map<int, IniSection>, resolutionSections: map<int, IniSection>)

  /**
   * A boolean lookup: 1 for text starting with y, Y, t, T or 1, 0 for text
   * starting with n, N, f, F or 0, and `notFound` for anything else or a
   * missing entry.
   */
  function GetBoolean(text: Option<string>, notFound: int): (r: int)
    ensures r == 0 || r == 1 || r == notFound
    ensures text.None? ==> r == notFound
    ensures text.Some? && |text.value| > 0 && text.value[0] in "yYtT1" ==> r == 1
    ensures text.Some? && |text.value| > 0 && text.value[0] in "nNfF0" ==> r == 0
  {
    match text
    case None => notFound
    case Some(t) =>
      if |t| > 0 && t[0] in "yYtT1" then 1
      else if |t| > 0 && t[0] in "nNfF0" then 0
      else notFound
  }

  /** The text of an entry, for a boolean lookup. */
  function TextOf(entry: Option<IniEntry>): (t: Option<string>)
    ensures t.Some? <==> entry.Some?
  {
    if entry.Some? then Some(entry.value.text) else None
  }

  /** An integer lookup: the entry's number, or `notFound` when it is missing. */
  function GetInt(entry: Option<IniEntry>, notFound: int): (r: int)
    ensures entry.None? ==> r == notFound
    ensures entry.Some? ==> r == entry.value.number
  {
    if entry.Some? then entry.value.number else notFound
  }

  predicate AddressesRead(e: NetworkEntries)
  {
    e.oscControllerAddress.Some? && e.oscControllerSubnetMask.Some? && e.oscControllerGateway.Some?
    && e.oscControllerDNS.Some? && e.oscSendAddress.Some?
    && e.artNetControllerAddress.Some? && e.artNetBroadcastAddress.Some?
  }

  /**
   * The network block as read, given the two ports and four DMX channels as
   * already looked up: read whole, or not at all when any entry failed.
   */
  function ReadNetwork(e: NetworkEntries, ports: (int, int), channels: (int, int, int, int)): (r: Option<NetworkSettings>)
  {
    var dhcp := GetBoolean(e.oscDHCP, FailInt);
    if dhcp != FailInt && AddressesRead(e) && ports.0 != FailInt && ports.1 != FailInt
       && channels.0 != FailInt && channels.1 != FailInt && channels.2 != FailInt && channels.3 != FailInt
    then
      Some(NetworkSettings(dhcp == 1, e.oscControllerAddress.value, ports.0, e.oscControllerSubnetMask.value,
        e.oscControllerGateway.value, e.oscControllerDNS.value, e.oscSendAddress.value, ports.1,
        e.artNetControllerAddress.value, e.artNetBroadcastAddress.value,
        channels.0, channels.1, channels.2, channels.3))
    else None
  }

  /**
   * The network block as the settings loader reads it: the ports and DMX
   * channels go through the boolean lookup, as DHCP does.
   */
  function NetworkAsWritten(e: NetworkEntries): (r: Option<NetworkSettings>)
    ensures r.Some? ==> r.value.oscControllerPort in {0, 1} && r.value.oscSendPort in {0, 1}
    ensures r.Some? ==> r.value.dmxInChannelXFade in {0, 1} && r.value.dmxInChannelFadeUp in {0, 1}
    ensures r.Some? ==> r.value.dmxOutChannelXFade in {0, 1} && r.value.dmxOutChannelFadeUp in {0, 1}
  {
    ReadNetwork(e,
      (GetBoolean(TextOf(e.oscControllerPort), FailInt), GetBoolean(TextOf(e.oscSendPort), FailInt)),
      (GetBoolean(TextOf(e.dmxInChannelXFade), FailInt), GetBoolean(TextOf(e.dmxInChannelFadeUp), FailInt),
       GetBoolean(TextOf(e.dmxOutChannelXFade), FailInt), GetBoolean(TextOf(e.dmxOutChannelFadeUp), FailInt)))
  }

  /** The network block read as intended: the ports and DMX channels go through the integer lookup. */
  function NetworkIntended(e: NetworkEntries): (r: Option<NetworkSettings>)
  {
    ReadNetwork(e,
      (GetInt(e.oscControllerPort, FailInt), GetInt(e.oscSendPort, FailInt)),
      (GetInt(e.dmxInChannelXFade, FailInt), GetInt(e.dmxInChannelFadeUp, FailInt),
       GetInt(e.dmxOutChannelXFade, FailInt), GetInt(e.dmxOutChannelFadeUp, FailInt)))
  }

  /** The numeric entries as an integer lookup reads them are present and none is the fail integer. */
  predicate NumbersRead(e: NetworkEntries)
  {
    var entries := [e.oscControllerPort, e.oscSendPort, e.dmxInChannelXFade, e.dmxInChannelFadeUp, e.dmxOutChannelXFade, e.dmxOutChannelFadeUp];
    forall k :: 0 <= k < |entries| ==> entries[k].Some? && entries[k].value.number != FailInt
  }

  /**
   * Read as intended, the block is read exactly when DHCP reads as a boolean,
   * every address reads and every number is present, and then the ports and
   * channels are the entries' numbers and DHCP is on iff it read as 1.
   */
  lemma NetworkIntendedReadsNumbers(e: NetworkEntries)
    ensures NetworkIntended(e).Some? <==> GetBoolean(e.oscDHCP, FailInt) != FailInt && AddressesRead(e) && NumbersRead(e)
    ensures NetworkIntended(e).Some? ==>
      var n := NetworkIntended(e).value;
      n.oscDHCP == (GetBoolean(e.oscDHCP, FailInt) == 1)
      && n.oscControllerPort == e.oscControllerPort.value.number && n.oscSendPort == e.oscSendPort.value.number
      && n.dmxInChannelXFade == e.dmxInChannelXFade.value.number && n.dmxInChannelFadeUp == e.dmxInChannelFadeUp.value.number
      && n.dmxOutChannelXFade == e.dmxOutChannelXFade.value.number && n.dmxOutChannelFadeUp == e.dmxOutChannelFadeUp.value.number
  {
    var entries := [e.oscControllerPort, e.oscSendPort, e.dmxInChannelXFade, e.dmxInChannelFadeUp, e.dmxOutChannelXFade, e.dmxOutChannelFadeUp];
    if NumbersRead(e) {
      assert entries[0].Some? && entries[1].Some? && entries[2].Some?;
      assert entries[3].Some? && entries[4].Some? && entries[5].Some?;
    }
  }

  /** A network block whose ports are 8000 and 10000, with DHCP off and the default DMX channels 0 and 1. */
  const ExampleNetworkEntries: NetworkEntries := NetworkEntries(
    Some("false"), Some(IpAddr(10, 0, 0, 2)), Some(IniEntry("8000", 8000)), Some(IpAddr(255, 255, 255, 0)),
    Some(IpAddr(10, 0, 0, 1)), Some(IpAddr(10, 0, 0, 1)), Some(IpAddr(255, 255, 255, 255)), Some(IniEntry("10000", 10000)),
    Some(IpAddr(2, 0, 0, 100)), Some(IpAddr(2, 255, 255, 255)),
    Some(IniEntry("0", 0)), Some(IniEntry("1", 1)), Some(IniEntry("0", 0)), Some(IniEntry("1", 1)))

  /**
   * Read as written, a controller port of 8000 fails the whole block (its
   * text starts with neither a true nor a false letter); with a controller
   * port of 1 instead, the block is read and the send port 10000 is kept
   * as 1. Read as intended, the block keeps 8000 and 10000.
   */
  lemma PortsReadAsBooleans()
    ensures NetworkAsWritten(ExampleNetworkEntries).None?
    ensures var e := ExampleNetworkEntries.(oscControllerPort := Some(IniEntry("1", 1)));
      NetworkAsWritten(e).Some? && NetworkAsWritten(e).value.oscSendPort == 1
    ensures NetworkIntended(ExampleNetworkEntries).Some?
    ensures NetworkIntended(ExampleNetworkEntries).value.oscControllerPort == 8000
    ensures NetworkIntended(ExampleNetworkEntries).value.oscSendPort == 10000
  {
    var e := ExampleNetworkEntries.(oscControllerPort := Some(IniEntry("1", 1)));
    assert "8000"[0] == '8';
    assert "10000"[0] == '1';
    assert "1"[0] == '1' && "0"[0] == '0';
    assert "false"[0] == 'f';
    NetworkIntendedReadsNumbers(ExampleNetworkEntries);
  }

  /** A text lookup: the entry, or the fail string when it is missing. */
  function SectionString(sections: map<int, IniSection>, n: int, field: string): string
  {
    if n in sections && field in sections[n].strings then sections[n].strings[field] else FailString
  }

  /** An integer lookup: the entry, or the fail integer when it is missing. */
  function SectionInt(sections: map<int, IniSection>, n: int, field: string): int
  {
    if n in sections && field in sections[n].ints then sections[n].ints[field] else FailInt
  }

  const KeyerFields: seq<string> := ["MinY", "MaxY", "MinU", "MaxU", "MinV", "MaxV"]

  /**
   * The lookup keys "KeyN:Field" are formatted into an 11-byte buffer, so
   * from N = 100 on they are cut short and name no entry. "ResolutionN:EDIDNumber"
   * has a 25-byte buffer and is cut short from N = 1000 on.
   */
  predicate KeyLookupFits(n: int) { n < 100 }
  predicate ResolutionLookupFits(n: int) { n < 1000 }

  /** The six integers of section KeyN, each the fail integer when missing. */
  function KeySectionSet(d: IniDict, n: int): (s: seq<int>)
    ensures |s| == KeyerParamCount
  {
    seq(6, i requires 0 <= i < 6 => SectionInt(d.keySections, n, KeyerFields[i]))
  }

  /** Section KeyN has a name and all six parameters (none reads as a failure). */
  predicate KeySectionComplete(d: IniDict, n: int): (complete: bool)
    ensures complete ==> SectionString(d.keySections, n, "Name") != FailString
    ensures complete ==> forall i :: 0 <= i < KeyerParamCount ==> KeySectionSet(d, n)[i] != FailInt
    ensures !KeyLookupFits(n) ==> !complete
  {
    KeyLookupFits(n)
    && SectionString(d.keySections, n, "Name") != FailString
    && FailInt !in KeySectionSet(d, n)
  }

  /** Section ResolutionN has a name, a resolution number and an EDID number. */
  predicate ResolutionSectionComplete(d: IniDict, n: int): (complete: bool)
    ensures complete ==> SectionString(d.resolutionSections, n, "Name") != FailString
    ensures complete ==> SectionInt(d.resolutionSections, n, "Number") != FailInt
    ensures complete ==> SectionInt(d.resolutionSections, n, "EDIDNumber") != FailInt
    ensures !ResolutionLookupFits(n) ==> !complete
  {
    ResolutionLookupFits(n)
    && SectionString(d.resolutionSections, n, "Name") != FailString
    && SectionInt(d.resolutionSections, n, "Number") != FailInt
    && SectionInt(d.resolutionSections, n, "EDIDNumber") != FailInt
  }

  /** Reading the six parameters one by one agrees with the section's set. */
  lemma KeySectionRead(d: IniDict, n: int)
    ensures KeySectionSet(d, n) == [SectionInt(d.keySections, n, "MinY"), SectionInt(d.keySections, n, "MaxY"),
                                    SectionInt(d.keySections, n, "MinU"), SectionInt(d.keySections, n, "MaxU"),
                                    SectionInt(d.keySections, n, "MinV"), SectionInt(d.keySections, n, "MaxV")]
  {
  }

  datatype KeyEntry = KeyEntry(name: string, params: seq<int>)
  datatype ResolutionEntry = ResolutionEntry(name: string, index: int, edidIndex: int)

  /** The keyer sections read from KeyN on: consecutive complete sections up to the first incomplete one. */
  function KeyScan(d: IniDict, n: int): (r: seq<KeyEntry>)
    requires n >= 1
    ensures |r| <= 100 - n || (|r| == 0)
    decreases 100 - n
  {
    if KeySectionComplete(d, n) then
      [KeyEntry(SectionString(d.keySections, n, "Name"), KeySectionSet(d, n))] + KeyScan(d, n + 1)
    else []
  }

  function ResolutionScan(d: IniDict, n: int): (r: seq<ResolutionEntry>)
    requires n >= 1
    ensures |r| <= 1000 - n || (|r| == 0)
    decreases 1000 - n
  {
    if ResolutionSectionComplete(d, n) then
      [ResolutionEntry(SectionString(d.resolutionSections, n, "Name"),
                       SectionInt(d.resolutionSections, n, "Number"),
                       SectionInt(d.resolutionSections, n, "EDIDNumber"))] + ResolutionScan(d, n + 1)
    else []
  }

  /**
   * Entry i of a scan from section 1 is section i + 1, every section before
   * it is complete, and the scan ends at the first incomplete section: a
   * complete section after a gap is never read.
   */
  lemma {:induction false} KeyScanIsPrefix(d: IniDict, n: int, i: int)
    requires n >= 1 && 0 <= i
    ensures i < |KeyScan(d, n)| <==> forall j :: n <= j <= n + i ==> KeySectionComplete(d, j)
    ensures i < |KeyScan(d, n)| ==> KeyScan(d, n)[i] == KeyEntry(SectionString(d.keySections, n + i, "Name"), KeySectionSet(d, n + i))
    decreases 100 - n
  {
    if !KeySectionComplete(d, n) {
      assert KeyScan(d, n) == [];
    } else if i > 0 {
      assert KeyScan(d, n) == [KeyEntry(SectionString(d.keySections, n, "Name"), KeySectionSet(d, n))] + KeyScan(d, n + 1);
      KeyScanIsPrefix(d, n + 1, i - 1);
    }
  }

  lemma {:induction false} ResolutionScanIsPrefix(d: IniDict, n: int, i: int)
    requires n >= 1 && 0 <= i
    ensures i < |ResolutionScan(d, n)| <==> forall j :: n <= j <= n + i ==> ResolutionSectionComplete(d, j)
    ensures i < |ResolutionScan(d, n)| ==>
      ResolutionScan(d, n)[i] == ResolutionEntry(SectionString(d.resolutionSections, n + i, "Name"),
                                                 SectionInt(d.resolutionSections, n + i, "Number"),
                                                 SectionInt(d.resolutionSections, n + i, "EDIDNumber"))
    decreases 1000 - n
  {
    if !ResolutionSectionComplete(d, n) {
      assert ResolutionScan(d, n) == [];
    } else if i > 0 {
      assert ResolutionScan(d, n) == [ResolutionEntry(SectionString(d.resolutionSections, n, "Name"),
                                                      SectionInt(d.resolutionSections, n, "Number"),
                                                      SectionInt(d.resolutionSections, n, "EDIDNumber"))]
                                     + ResolutionScan(d, n + 1);
      ResolutionScanIsPrefix(d, n + 1, i - 1);
    }
  }

  /** Every keyer set a scan reads holds six parameters. */
  lemma {:induction false} KeyScanSetsSized(d: IniDict, n: int)
    requires n >= 1
    ensures forall i :: 0 <= i < |KeyScan(d, n)| ==> |KeyScan(d, n)[i].params| == KeyerParamCount
    decreases 100 - n
  {
    if KeySectionComplete(d, n) {
      KeyScanSetsSized(d, n + 1);
    }
  }

  lemma KeyScanStep(d: IniDict, n: int, read: seq<KeyEntry>)
    requires n >= 1 && KeySectionComplete(d, n) && KeyScan(d, 1) == read + KeyScan(d, n)
    ensures KeyScan(d, 1) == (read + [KeyEntry(SectionString(d.keySections, n, "Name"), KeySectionSet(d, n))]) + KeyScan(d, n + 1)
  {
  }

  lemma KeyScanStop(d: IniDict, n: int, read: seq<KeyEntry>)
    requires n >= 1 && !KeySectionComplete(d, n) && KeyScan(d, 1) == read + KeyScan(d, n)
    ensures KeyScan(d, 1) == read
  {
    assert read + [] == read;
  }

  lemma KeyListsExtend(read: seq<KeyEntry>, e: KeyEntry, names: seq<string>, sets: seq<seq<int>>)
    requires (|read| == 0 && names == [CurrentKeyName] && sets == [CurrentKeySet])
          || (names == [CurrentKeyName] + KeyNames(read) && sets == [CurrentKeySet] + KeySets(read))
    ensures names + [e.name] == [CurrentKeyName] + KeyNames(read + [e])
    ensures sets + [e.params] == [CurrentKeySet] + KeySets(read + [e])
  {
    KeyListsAppend(read, e);
    if |read| == 0 {
      assert KeyNames(read) == [] && KeySets(read) == [];
    }
  }

  lemma LoadedKeySetsSized(d: IniDict)
    ensures var sets := [CurrentKeySet] + KeySets(KeyScan(d, 1));
      forall i :: 0 <= i < |sets| ==> |sets[i]| == KeyerParamCount
  {
    KeyScanSetsSized(d, 1);
    var scan := KeyScan(d, 1);
    var sets := [CurrentKeySet] + KeySets(scan);
    forall i | 0 <= i < |sets|
      ensures |sets[i]| == KeyerParamCount
    {
      if i > 0 {
        assert sets[i] == KeySets(scan)[i - 1] == scan[i - 1].params;
      }
    }
  }

  /** At most 99 keyer sections can ever be read. */
  lemma KeyScanAtMost99(d: IniDict)
    ensures |KeyScan(d, 1)| <= 99
  {
  }

  function KeyNames(entries: seq<KeyEntry>): (r: seq<string>)
    ensures |r| == |entries| && forall i :: 0 <= i < |r| ==> r[i] == entries[i].name
  {
    seq(|entries|, i requires 0 <= i < |entries| => entries[i].name)
  }

  function KeySets(entries: seq<KeyEntry>): (r: seq<seq<int>>)
    ensures |r| == |entries| && forall i :: 0 <= i < |r| ==> r[i] == entries[i].params
  {
    seq(|entries|, i requires 0 <= i < |entries| => entries[i].params)
  }

  function ResolutionNames(entries: seq<ResolutionEntry>): (r: seq<string>)
    ensures |r| == |entries| && forall i :: 0 <= i < |r| ==> r[i] == entries[i].name
  {
    seq(|entries|, i requires 0 <= i < |entries| => entries[i].name)
  }

  function ResolutionIndexes(entries: seq<ResolutionEntry>): (r: seq<int>)
    ensures |r| == |entries| && forall i :: 0 <= i < |r| ==> r[i] == entries[i].index
  {
    seq(|entries|, i requires 0 <= i < |entries| => entries[i].index)
  }

  function ResolutionEDIDIndexes(entries: seq<ResolutionEntry>): (r: seq<int>)
    ensures |r| == |entries| && forall i :: 0 <= i < |r| ==> r[i] == entries[i].edidIndex
  {
    seq(|entries|, i requires 0 <= i < |entries| => entries[i].edidIndex)
  }

  lemma KeyListsAppend(entries: seq<KeyEntry>, e: KeyEntry)
    ensures KeyNames(entries + [e]) == KeyNames(entries) + [e.name]
    ensures KeySets(entries + [e]) == KeySets(entries) + [e.params]
  {
    assert KeyNames(entries + [e]) == KeyNames(entries) + [e.name];
    assert KeySets(entries + [e]) == KeySets(entries) + [e.params];
  }

  lemma ResolutionListsAppend(entries: seq<ResolutionEntry>, e: ResolutionEntry)
    ensures ResolutionNames(entries + [e]) == ResolutionNames(entries) + [e.name]
    ensures ResolutionIndexes(entries + [e]) == ResolutionIndexes(entries) + [e.index]
    ensures ResolutionEDIDIndexes(entries + [e]) == ResolutionEDIDIndexes(entries) + [e.edidIndex]
  {
    assert ResolutionNames(entries + [e]) == ResolutionNames(entries) + [e.name];
    assert ResolutionIndexes(entries + [e]) == ResolutionIndexes(entries) + [e.index];
    assert ResolutionEDIDIndexes(entries + [e]) == ResolutionEDIDIndexes(entries) + [e.edidIndex];
  }

  /** A keyer set whose three ranges are ordered and within 0..255. */
  predicate KeyRangeSane(s: seq<int>)
  {
    |s| == KeyerParamCount
    && s[MinY] <= s[MaxY] && s[MinU] <= s[MaxU] && s[MinV] <= s[MaxV]
    && forall i :: 0 <= i < KeyerParamCount ==> 0 <= s[i] <= 255
  }

  /** The factory tables are well formed and every default key range is ordered within 0..255. */
  lemma DefaultsWellFormed()
    ensures |DefaultKeyerParamNames| == |DefaultKeyerParamSets| == 3
    ensures DefaultKeyerParamNames[0] == CurrentKeyName && DefaultKeyerParamSets[0] == CurrentKeySet
    ensures forall k :: 0 <= k < |DefaultKeyerParamSets| ==> KeyRangeSane(DefaultKeyerParamSets[k])
    ensures |DefaultResolutionNames| == |DefaultResolutionIndexes| == |DefaultResolutionEDIDIndexes| == 10
  {
    assert KeyRangeSane(CurrentKeySet);
    assert KeyRangeSane([30, 35, 237, 242, 114, 121]);
  }

  class SettingsStore {
    var editingKeyerSetIndex: int
    var network: NetworkSettings
    var keyerParamSets: seq<seq<int>>
    var keyerParamNames: seq<string>
    var resolutionNames: seq<string>
    var resolutionIndexes: seq<int>
    var resolutionEDIDIndexes: seq<int>

    /** Parallel lists stay parallel and every keyer set holds six parameters. */
    ghost predicate Valid()
      reads this
    {
      |keyerParamNames| == |keyerParamSets|
      && (forall i :: 0 <= i < |keyerParamSets| ==> |keyerParamSets[i]| == KeyerParamCount)
      && |resolutionNames| == |resolutionIndexes| == |resolutionEDIDIndexes|
    }

    constructor ()
      ensures Valid()
      ensures editingKeyerSetIndex == -1
      ensures network == DefaultNetwork
      ensures keyerParamNames == DefaultKeyerParamNames && keyerParamSets == DefaultKeyerParamSets
      ensures resolutionNames == DefaultResolutionNames
      ensures resolutionIndexes == DefaultResolutionIndexes
      ensures resolutionEDIDIndexes == DefaultResolutionEDIDIndexes
    {
      editingKeyerSetIndex := -1;
      new;
      LoadDefaults();
    }

    method LoadDefaults()
      modifies this
      ensures Valid()
      ensures editingKeyerSetIndex == old(editingKeyerSetIndex)
      ensures network == DefaultNetwork
      ensures keyerParamNames == DefaultKeyerParamNames && keyerParamSets == DefaultKeyerParamSets
      ensures resolutionNames == DefaultResolutionNames
      ensures resolutionIndexes == DefaultResolutionIndexes
      ensures resolutionEDIDIndexes == DefaultResolutionEDIDIndexes
    {
      network := DefaultNetwork;

      keyerParamNames := [];
      keyerParamSets := [];
      keyerParamSets := keyerParamSets + [[0, 18, 128, 129, 128, 129]];
      keyerParamNames := keyerParamNames + [CurrentKeyName];
      keyerParamSets := keyerParamSets + [[0, 18, 128, 129, 128, 129]];
      keyerParamNames := keyerParamNames + ["Lumakey"];
      keyerParamSets := keyerParamSets + [[30, 35, 237, 242, 114, 121]];
      keyerParamNames := keyerParamNames + ["Chromakey - Blue"];

      resolutionNames := DefaultResolutionNames;
      resolutionIndexes := DefaultResolutionIndexes;
      resolutionEDIDIndexes := DefaultResolutionEDIDIndexes;
    }

    function KeyerParamName(index: int): (name: string)
      reads this
      requires Valid() && 0 <= index < |keyerParamNames|
      ensures name in keyerParamNames
    {
      keyerParamNames[index]
    }

    function KeyerParamSet(index: int): (params: seq<int>)
      reads this
      requires Valid() && 0 <= index < |keyerParamSets|
      ensures |params| == KeyerParamCount
    {
      keyerParamSets[index]
    }

    function KeyerSetCount(): (n: int)
      reads this
      requires Valid()
      ensures n == |keyerParamNames|
    {
      |keyerParamSets|
    }

    predicate EditingInRange()
      reads this
    {
      0 <= editingKeyerSetIndex < |keyerParamSets|
    }

    /** The parameter of the set being edited, or -1 when no valid set is being edited. */
    function EditingKeyerSetValue(parameter: int): (value: int)
      reads this
      requires Valid() && 0 <= parameter < KeyerParamCount
      ensures EditingInRange() ==> value == keyerParamSets[editingKeyerSetIndex][parameter]
      ensures !EditingInRange() ==> value == -1
    {
      if 0 <= editingKeyerSetIndex && editingKeyerSetIndex < KeyerSetCount()
      then keyerParamSets[editingKeyerSetIndex][parameter]
      else -1
    }

    /**
     * Store one parameter of the set being edited; nothing at all changes
     * when no valid set is being edited.
     */
    method SetEditingKeyerSetValue(parameter: int, value: int)
      requires Valid() && 0 <= parameter < KeyerParamCount
      modifies this`keyerParamSets
      ensures Valid()
      ensures EditingInRange() ==>
        keyerParamSets == old(keyerParamSets)[editingKeyerSetIndex := old(keyerParamSets)[editingKeyerSetIndex][parameter := value]]
      ensures !EditingInRange() ==> keyerParamSets == old(keyerParamSets)
      ensures EditingInRange() ==> EditingKeyerSetValue(parameter) == value
      ensures forall q :: 0 <= q < KeyerParamCount && q != parameter ==> EditingKeyerSetValue(q) == old(EditingKeyerSetValue(q))
    {
      if 0 <= editingKeyerSetIndex && editingKeyerSetIndex < KeyerSetCount() {
        var edited := keyerParamSets[editingKeyerSetIndex][parameter := value];
        keyerParamSets := keyerParamSets[editingKeyerSetIndex := edited];
      }
    }

    function ResolutionName(index: int): (name: string)
      reads this
      requires Valid() && 0 <= index < |resolutionNames|
      ensures name in resolutionNames
    {
      resolutionNames[index]
    }

    function ResolutionIndex(index: int): (id: int)
      reads this
      requires Valid() && 0 <= index < |resolutionNames|
      ensures id in resolutionIndexes
    {
      resolutionIndexes[index]
    }

    function ResolutionEDIDIndex(index: int): (slot: int)
      reads this
      requires Valid() && 0 <= index < |resolutionNames|
      ensures slot in resolutionEDIDIndexes
    {
      resolutionEDIDIndexes[index]
    }

    function ResolutionsCount(): (n: int)
      reads this
      requires Valid()
      ensures n == |resolutionIndexes| == |resolutionEDIDIndexes|
    {
      |resolutionNames|
    }

    /**
     * Rebuild the settings from a parsed file. The network block, with its
     * ports and channels read as integers, replaces the network settings
     * only when it was read whole. The keyer list is
     * replaced, on the first complete [KeyN] section, by the reserved current
     * set followed by every consecutive complete section; the resolution
     * lists likewise, without a reserved entry. A list is untouched when its
     * first section is incomplete. The result says whether anything was read.
     */
    method Load(d: IniDict) returns (success: bool)
      requires Valid()
      modifies this`network, this`keyerParamNames, this`keyerParamSets,
               this`resolutionNames, this`resolutionIndexes, this`resolutionEDIDIndexes
      ensures Valid()
      ensures network == if NetworkIntended(d.network).Some? then NetworkIntended(d.network).value else old(network)
      ensures var keys := KeyScan(d, 1);
        if |keys| > 0 then
          keyerParamNames == [CurrentKeyName] + KeyNames(keys) && keyerParamSets == [CurrentKeySet] + KeySets(keys)
        else
          keyerParamNames == old(keyerParamNames) && keyerParamSets == old(keyerParamSets)
      ensures var res := ResolutionScan(d, 1);
        if |res| > 0 then
          resolutionNames == ResolutionNames(res) && resolutionIndexes == ResolutionIndexes(res)
          && resolutionEDIDIndexes == ResolutionEDIDIndexes(res)
        else
          resolutionNames == old(resolutionNames) && resolutionIndexes == old(resolutionIndexes)
          && resolutionEDIDIndexes == old(resolutionEDIDIndexes)
      ensures success == (NetworkIntended(d.network).Some? || |KeyScan(d, 1)| > 0 || |ResolutionScan(d, 1)| > 0)
    {
      success := false;

      // Network
      var read := NetworkIntended(d.network);
      if read.Some? {
        network := read.value;
        success := true;
      }

      var keysRead := LoadKeys(d);
      var resolutionsRead := LoadResolutions(d);
      success := success || keysRead || resolutionsRead;
    }

    /** The keyer half of Load: true when at least one [KeyN] section was read. */
    method LoadKeys(d: IniDict) returns (anyRead: bool)
      requires Valid()
      modifies this`keyerParamNames, this`keyerParamSets
      ensures Valid()
      ensures var keys := KeyScan(d, 1);
        if |keys| > 0 then
          keyerParamNames == [CurrentKeyName] + KeyNames(keys) && keyerParamSets == [CurrentKeySet] + KeySets(keys)
        else
          keyerParamNames == old(keyerParamNames) && keyerParamSets == old(keyerParamSets)
      ensures anyRead == (|KeyScan(d, 1)| > 0)
    {
      var counter := 1;
      var keyParamReadOK := true;
      var keyParamCleared := false;
      ghost var read: seq<KeyEntry> := [];
      while keyParamReadOK
        invariant 1 <= counter <= 101
        invariant keyParamReadOK ==> counter <= 100
        invariant counter == |read| + 1 || !keyParamReadOK
        invariant keyParamReadOK ==> KeyScan(d, 1) == read + KeyScan(d, counter)
        invariant !keyParamReadOK ==> KeyScan(d, 1) == read
        invariant keyParamCleared <==> |read| > 0
        invariant keyParamCleared ==> keyerParamNames == [CurrentKeyName] + KeyNames(read) && keyerParamSets == [CurrentKeySet] + KeySets(read)
        invariant !keyParamCleared ==> keyerParamNames == old(keyerParamNames) && keyerParamSets == old(keyerParamSets)
        decreases if keyParamReadOK then 101 - counter else 0
      {
        var paramName, paramSet;
        keyParamReadOK, paramName, paramSet := ReadKeySection(d, counter);

        if keyParamReadOK {
          ghost var e := KeyEntry(paramName, paramSet);
          assert KeyScan(d, 1) == (read + [e]) + KeyScan(d, counter + 1) by {
            KeyScanStep(d, counter, read);
          }
          AddKeySet(paramName, paramSet, keyParamCleared, read);
          keyParamCleared := true;
          read := read + [e];
        } else {
          KeyScanStop(d, counter, read);
        }
        counter := counter + 1;
      }
      if keyParamCleared {
        LoadedKeySetsSized(d);
      }
      anyRead := keyParamCleared;
    }

    /**
     * Append a keyer set read from the file; the first one read first
     * clears the list down to the reserved current set.
     */
    method AddKeySet(paramName: string, paramSet: seq<int>, cleared: bool, ghost read: seq<KeyEntry>)
      requires cleared <==> |read| > 0
      requires cleared ==> keyerParamNames == [CurrentKeyName] + KeyNames(read) && keyerParamSets == [CurrentKeySet] + KeySets(read)
      modifies this`keyerParamNames, this`keyerParamSets
      ensures keyerParamNames == [CurrentKeyName] + KeyNames(read + [KeyEntry(paramName, paramSet)])
      ensures keyerParamSets == [CurrentKeySet] + KeySets(read + [KeyEntry(paramName, paramSet)])
    {
      if !cleared {
        keyerParamNames := [];
        keyerParamSets := [];
        keyerParamSets := keyerParamSets + [CurrentKeySet];
        keyerParamNames := keyerParamNames + [CurrentKeyName];
      }
      KeyListsExtend(read, KeyEntry(paramName, paramSet), keyerParamNames, keyerParamSets);
      keyerParamNames := keyerParamNames + [paramName];
      keyerParamSets := keyerParamSets + [paramSet];
    }

    /**
     * Read the name and the six parameters of section KeyN, each lookup
     * failing the read as a whole.
     */
    static method ReadKeySection(d: IniDict, counter: int) returns (readOK: bool, paramName: string, paramSet: seq<int>)
      ensures readOK == KeySectionComplete(d, counter)
      ensures paramName == SectionString(d.keySections, counter, "Name")
      ensures paramSet == KeySectionSet(d, counter)
    {
      paramName := SectionString(d.keySections, counter, "Name");
      readOK := KeyLookupFits(counter) && paramName != FailString;
      var minY := SectionInt(d.keySections, counter, "MinY");
      readOK := readOK && minY != FailInt;
      var maxY := SectionInt(d.keySections, counter, "MaxY");
      readOK := readOK && maxY != FailInt;
      var minU := SectionInt(d.keySections, counter, "MinU");
      readOK := readOK && minU != FailInt;
      var maxU := SectionInt(d.keySections, counter, "MaxU");
      readOK := readOK && maxU != FailInt;
      var minV := SectionInt(d.keySections, counter, "MinV");
      readOK := readOK && minV != FailInt;
      var maxV := SectionInt(d.keySections, counter, "MaxV");
      readOK := readOK && maxV != FailInt;
      paramSet := [minY, maxY, minU, maxU, minV, maxV];
      KeySectionRead(d, counter);
    }

    /** The resolution lists hold exactly the names, numbers and EDID numbers of `res`. */
    ghost predicate HoldsResolutions(res: seq<ResolutionEntry>)
      reads this
    {
      resolutionNames == ResolutionNames(res) && resolutionIndexes == ResolutionIndexes(res)
      && resolutionEDIDIndexes == ResolutionEDIDIndexes(res)
    }

    /** Append a resolution read from the file; the first one read first clears the lists. */
    method AddResolution(e: ResolutionEntry, cleared: bool, ghost readRes: seq<ResolutionEntry>)
      requires cleared <==> |readRes| > 0
      requires cleared ==> HoldsResolutions(readRes)
      modifies this`resolutionNames, this`resolutionIndexes, this`resolutionEDIDIndexes
      ensures HoldsResolutions(readRes + [e])
    {
      if !cleared {
        resolutionNames := [];
        resolutionIndexes := [];
        resolutionEDIDIndexes := [];
      }
      ResolutionListsAppend(readRes, e);
      resolutionNames := resolutionNames + [e.name];
      resolutionIndexes := resolutionIndexes + [e.index];
      resolutionEDIDIndexes := resolutionEDIDIndexes + [e.edidIndex];
    }

    /** Read section [Resolution`counter`]: its name, number and EDID number, and whether all three are there. */
    method ReadResolution(d: IniDict, counter: int) returns (ok: bool, e: ResolutionEntry)
      requires 1 <= counter
      ensures ok == ResolutionSectionComplete(d, counter)
      ensures ok ==> ResolutionScan(d, counter) == [e] + ResolutionScan(d, counter + 1)
      ensures !ok ==> ResolutionScan(d, counter) == []
    {
      var resolutionName := SectionString(d.resolutionSections, counter, "Name");
      ok := resolutionName != FailString;
      var resolutionIndex := SectionInt(d.resolutionSections, counter, "Number");
      ok := ok && resolutionIndex != FailInt;
      var resolutionEDIDIndex := if ResolutionLookupFits(counter) then SectionInt(d.resolutionSections, counter, "EDIDNumber") else FailInt;
      ok := ok && resolutionEDIDIndex != FailInt;
      e := ResolutionEntry(resolutionName, resolutionIndex, resolutionEDIDIndex);
    }

    /** The resolution half of Load: true when at least one [ResolutionN] section was read. */
    method LoadResolutions(d: IniDict) returns (anyRead: bool)
      requires Valid()
      modifies this`resolutionNames, this`resolutionIndexes, this`resolutionEDIDIndexes
      ensures Valid()
      ensures var res := ResolutionScan(d, 1);
        if |res| > 0 then
          resolutionNames == ResolutionNames(res) && resolutionIndexes == ResolutionIndexes(res)
          && resolutionEDIDIndexes == ResolutionEDIDIndexes(res)
        else
          resolutionNames == old(resolutionNames) && resolutionIndexes == old(resolutionIndexes)
          && resolutionEDIDIndexes == old(resolutionEDIDIndexes)
      ensures anyRead == (|ResolutionScan(d, 1)| > 0)
    {
      var counter := 1;
      var resolutionReadOK := true;
      var resolutionCleared := false;
      ghost var readRes: seq<ResolutionEntry> := [];
      while resolutionReadOK
        invariant 1 <= counter <= 1001
        invariant resolutionReadOK ==> counter <= 1000
        invariant counter == |readRes| + 1 || !resolutionReadOK
        invariant resolutionReadOK ==> ResolutionScan(d, 1) == readRes + ResolutionScan(d, counter)
        invariant !resolutionReadOK ==> ResolutionScan(d, 1) == readRes
        invariant resolutionCleared <==> |readRes| > 0
        invariant resolutionCleared ==> HoldsResolutions(readRes)
        invariant !resolutionCleared ==>
          (resolutionNames == old(resolutionNames)
           && resolutionIndexes == old(resolutionIndexes) && resolutionEDIDIndexes == old(resolutionEDIDIndexes))
        invariant Valid()
        decreases if resolutionReadOK then 1001 - counter else 0
      {
        var e;
        resolutionReadOK, e := ReadResolution(d, counter);
        if resolutionReadOK {
          assert ResolutionScan(d, 1) == (readRes + [e]) + ResolutionScan(d, counter + 1);
          AddResolution(e, resolutionCleared, readRes);
          resolutionCleared := true;
          readRes := readRes + [e];
        } else {
          assert readRes + [] == readRes;
        }
        counter := counter + 1;
      }
      anyRead := resolutionCleared;
    }
  }
}
