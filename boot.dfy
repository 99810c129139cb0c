/**
 * The mode branch of `setup`: after the filesystem is mounted, the reset pin
 * is sampled once; LOW starts the open provisioning access point, any other
 * level joins the stored network as a station.  The radio calls are reduced
 * to the mode and the arguments they are given.
 */
module Boot {
  import opened Flash
  import opened Provisioning

  /** Arduino's LOW level as returned by digitalRead. */
  const Low: int := 0

  /** The fixed, open access point the provisioning page is served on. */
  const ApSsid: string := "Setup_"
  const ApPassword: string := ""

  /** What setup leaves the radio doing. */
  datatype Mode =
    | Halted                                      // mounting failed: setup returned early
    | AccessPoint(ssid: string, password: string) // WiFi.softAP(ssid, password)
    | Station(ssid: string, password: string)     // WiFi.begin(ssid, password)

  /** setup: mount check, pin test, and for a station the two credential reads. */
  method Setup(fs: Spiffs, mounted: bool, pinLevel: int) returns (mode: Mode)
    ensures !mounted ==> mode == Halted
    ensures mounted && pinLevel == Low ==> mode == AccessPoint("Setup_", "")
    ensures mounted && pinLevel != Low ==>
      mode == Station(Read(fs.vol, SsidPath), Read(fs.vol, PassPath))
    ensures mode.Station? ==> NoNul(mode.ssid) && NoNul(mode.password)
  {
    if !mounted {
      return Halted;
    }
    if pinLevel == Low {
      return AccessPoint(ApSsid, ApPassword);
    }
    var ssid := fs.ReadFile(SsidPath);
    var password := fs.ReadFile(PassPath);
    // WiFi.begin receives the c_str() of each String read
    mode := Station(CString(ssid), CString(password));
  }

  /**
   * The provisioning round trip across a reboot: after both forms have been
   * submitted in access-point mode (in either order) and both files could be
   * opened, the station joins with exactly the submitted NUL-free values.
   */
  lemma {:induction false} ProvisionedStationJoins(v: Volume, ssid: string, password: string)
    requires WriteOpens(v, SsidPath) && WriteOpens(v, PassPath)
    requires NoNul(ssid) && NoNul(password)
    ensures var w := HandleGet(HandleGet(v, map[ParamSsid := ssid]).vol, map[ParamPass := password]).vol;
      Station(Read(w, SsidPath), Read(w, PassPath)) == Station(ssid, password)
    ensures var w := HandleGet(HandleGet(v, map[ParamPass := password]).vol, map[ParamSsid := ssid]).vol;
      Station(Read(w, SsidPath), Read(w, PassPath)) == Station(ssid, password)
  {
    SubmissionsCommute(v, ssid, password);
    var s := map[ParamSsid := ssid];
    var p := map[ParamPass := password];
    var u := HandleGet(v, s).vol;
    assert ParamSsid !in p;
    assert u == Write(v, SsidPath, ssid);
    assert WriteOpens(u, PassPath) by {
      assert Agrees(v, u, PassPath);
    }
    var w := HandleGet(u, p).vol;
    assert Read(u, SsidPath) == ssid;
    assert Read(w, SsidPath) == Read(u, SsidPath);
  }

  /** A device that was never provisioned joins with two empty strings. */
  lemma UnprovisionedStationJoinsEmpty(v: Volume)
    requires SsidPath !in v.nodes && PassPath !in v.nodes
    ensures Station(Read(v, SsidPath), Read(v, PassPath)) == Station("", "")
  {
  }
}
