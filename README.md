# WiFi provisioning sketch for ESP32 / ESP8266, modelled in Dafny

The sketch (`main.cpp`) picks a mode once at boot. If the reset pin is pulled LOW it brings up an open access point named `Setup_`. It then serves a page where a user types the network SSID and password. Each form posts `/get?inputssid=…` or `/get?inputpass=…`, and the handler saves that one value to `/inputssid.txt` or `/inputpass.txt` in SPIFFS flash. At any other pin level the sketch reads both files and joins that network as a station.

The model has three modules:

- `Flash` (`flash.dfy`) models the filesystem as a `Volume`: a map from path to `Node` (a `File` of bytes or a `Dir`), plus the set of paths whose open fails. It gives the specification functions `Read` and `Write`. The class `Spiffs` holds the mounted volume and has the methods `ReadFile` (the byte-copy loop of `readFile`) and `WriteFile`, each proved against its function.
- `Provisioning` (`provisioning.dfy`) holds the placeholder lookup `processor`, `notFound`, and the `/get` handler. The handler appears twice: as the function `HandleGet` on volumes, and as the method `OnGet`, which mutates a `Spiffs` and is proved equal to `HandleGet`.
- `Boot` (`boot.dfy`) holds the branch of `setup`: the mount check, then the pin test, then either access-point mode or station mode with the two stored credentials.

Two byte-level details of the code are modelled:

- `writeFile` gets `inputMessage.c_str()` and writes it with `file.print`. So only the part before the first NUL byte is stored (`CString`).
- `readFile` appends `String((char)file.read())` for each byte. The model assumes the Arduino core whose `String(char)` constructor builds its string from a NUL-terminated two-byte buffer, so a NUL byte in a file adds nothing (`DropNul`). That constructor is library code outside `main.cpp`; see "## Left out". For a file without NUL bytes, `readFile` returns exactly its bytes, in order.

The handler echoes the whole parameter value. The value is echoed even when the file could not be opened.

## Model

| member | source | states |
|---|---|---|
| Flash.CString | main.cpp:86 | what `print(const char*)` writes: the longest NUL-free prefix of the message; it equals the message exactly when the message has no NUL |
| Flash.DropNul | main.cpp:72-74 | appending `String((char)b)` per byte keeps every non-NUL byte and no NUL; a NUL-free input comes back unchanged |
| Flash.DropNulAppend | main.cpp:72-74 | dropping NULs distributes over concatenation, so bytes are kept in their original order |
| Flash.Read | main.cpp:63-77 | readFile is "" when the path is absent, fails to open or is a directory; for a NUL-free regular file it is exactly the file's bytes; the result never holds a NUL |
| Flash.Write | main.cpp:79-91 | when the open succeeds, the path holds a regular file whose bytes are the C string of the message, so a following read returns that C string, which is the message itself when it holds no NUL; a failed open leaves the volume unchanged; every other path keeps its node and its read value |
| Flash.WriteOverwrites | main.cpp:81-86 | opening with "w" truncates: a second write to a path erases every trace of the first |
| Flash.WritesCommute | main.cpp:79-91 | writes to two different paths give the same volume in either order |
| Flash.Spiffs.ReadFile | main.cpp:63-77 | the `while(file.available())` loop returns `Read` of the current volume; it does not modify the store |
| Flash.Spiffs.WriteFile | main.cpp:79-91 | the new volume is `Write` of the old one; nothing else changes |
| Provisioning.NotFound | main.cpp:59-61 | every unrouted request is answered 404, text/plain, "Not found" |
| Provisioning.Processor | main.cpp:94-102 | token `inputssid` yields `readFile("/inputssid.txt")`, `inputpass` yields `readFile("/inputpass.txt")`, any other token ""; it is a function of the store and cannot change it |
| Provisioning.HandleGet | main.cpp:143-160 | always 200 text/text. If `inputssid` is present (even alongside `inputpass`), only `/inputssid.txt` may change: it reads back the value's C string if the open succeeded, and if the open failed the whole store is unchanged; the body is the value either way. Otherwise, if `inputpass` is present, the same holds for `/inputpass.txt`. With neither parameter the store is unchanged and the body is "No message sent" |
| Provisioning.OnGet | main.cpp:143-160 | the handler run against the mounted filesystem produces exactly the store and reply of `HandleGet` |
| Provisioning.SubmitThenRender | main.cpp:94-102 | after submitting one field, re-rendering shows that field's saved C string (or its old value if the open failed), and every other placeholder renders as before |
| Provisioning.EchoMatchesStored | main.cpp:148 | when the open succeeds, the echoed body equals the value shown afterwards if and only if the value holds no NUL byte |
| Provisioning.SubmissionsCommute | main.cpp:146-154 | submitting the SSID form then the password form leaves the same store as the reverse order |
| Provisioning.PasswordSecr3tRenders | main.cpp:151-154 | saving the password `Secr3t` makes the password placeholder render `Secr3t` |
| Boot.Setup | main.cpp:117-173 | a mount failure halts before any mode is chosen; pin LOW gives access point `"Setup_"` with an empty password; any other level gives station mode, joined with the current (possibly empty) contents of `/inputssid.txt` and `/inputpass.txt` |
| Boot.ProvisionedStationJoins | main.cpp:143-173 | once both NUL-free credentials have been saved in access-point mode, in either order, a station boot joins with exactly those values |
| Boot.UnprovisionedStationJoinsEmpty | main.cpp:164-173 | with neither file present, the station joins with two empty strings |

## Left out

- Radio calls (`WiFi.disconnect`, `WiFi.mode`, `WiFi.softAP`, `WiFi.begin`, `WiFi.localIP`) are vendor driver code. `Boot.Mode` records only the chosen mode and its arguments. The result of `softAP` is not modelled, because it is only logged.
- The `while(WiFi.status() != WL_CONNECTED)` poll (main.cpp:174-177) is left out. It depends on radio state outside the program and has no bound.
- Server route registration, dispatch by path, and concurrent invocation of handlers are library behaviour (AsyncWebServer) and are left out. Handlers are modelled one request at a time.
- The `%placeholder%` expansion inside `send_P` and the HTML/JavaScript page text are library and static content; only `processor` is modelled.
- Serial logging, `delay`, `while(!Serial)` and `pinMode` are I/O and timing; they are left out.
- The SPIFFS mount, including the ESP32 `begin(true)` formatting and the `#ifdef` platform split, is the single boolean `mounted`.
- Whether an open fails is not computed. `Volume.unopenable` is the given set of paths whose open fails in every mode. When a path holds a directory, the model treats an open for writing as failing.
- Flash.Write: a `file.print` that fails after a successful open, leaving a truncated or partial file, is not modelled. The print is taken to write the whole C string, because the free space on the flash is not part of the model.
- Request parameters are a map from name to value. Repeated parameter names, and the library's choice among them, are not modelled.
- Out-of-memory failures while growing an Arduino `String` are not modelled.
- The empty `loop()` does nothing and has no model.
- Flash.DropNul / Flash.Read: the model assumes an Arduino core whose `String(char)` builds a NUL-terminated one-character string, so `readFile` drops NUL bytes. On a core whose `String(char)` keeps a NUL (length 1), `readFile` would return every byte of the file, `Read` would be the file's data unchanged, and only the `c_str()` calls before `WiFi.begin` (main.cpp:167, main.cpp:170) would cut the credentials at the first NUL. For files written by this sketch the two agree, because `writeFile` never stores a NUL.
- File contents and parameter values are Dafny `string`s, one `char` per byte. Nothing restricts a `char` to the range 0..255, so the model also admits values no byte could hold; no contract depends on that range.
