/**
 * What the sign asks of its hardware collaborators. The model records these
 * requests in order instead of performing them.
 */
module Effects {
  import opened Wrappers

  /** `os.getenv("CIRCUITPY_WIFI_SSID")` and `os.getenv("CIRCUITPY_WIFI_PASSWORD")`. */
  datatype Credentials = Credentials(ssid: Option<string>, password: Option<string>)

  datatype Action =
    | LoadLogo(file: string)          // open a bitmap file and put it in the logo tile
    | ShowDisplay                     // `display.root_group = group`
    | SyncClock                       // `network.get_local_time()`
    | FetchData(url: string)          // `network.fetch_data(DATA_SOURCE, ...)`
    | ResetDevice                     // `microcontroller.reset()`: does not return
    | ConnectAP(credentials: Credentials)  // `esp.connect_AP(ssid, password)`
    | ResetEsp                        // `esp.reset()`: power-cycles the wireless coprocessor
    | Pause(seconds: nat)             // `time.sleep(seconds)`
}
