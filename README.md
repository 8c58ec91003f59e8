# Edge Node Launcher: history filter, address file and theme

The Edge Node Launcher is a desktop window that starts and stops a containerised
edge node and shows its resource history. Almost all of its main window
(`EdgeNodeLauncher` in `app_forms/frm_main.py`) is widget construction,
plotting and Docker calls. This project models the three parts whose behaviour
does not depend on the GUI toolkit, and proves what they promise:

- **The history change filter** (`check_data`). The launcher remembers the
  timestamps it last saw. When a freshly loaded history record carries
  different timestamps, the filter stores them, cuts every series of the
  record in place to its last `MAX_HISTORY_QUEUE` entries, and reports a
  change. `History.Check` states one call as a function of the last-seen
  timestamps and the record. `Launcher.EdgeNodeLauncher.CheckData` is the
  in-place method over a `HistoryRecord` object, proved equal to it.
- **The address file** (`refresh_local_address`). The file's text is split on
  single spaces with empty pieces dropped. The first token is the node
  address and the second, if any, the node name. The address is shown as its
  first 8 characters, `...`, and its last 8. A file that is missing or has no
  tokens shows `Address file not found.` and clears the name label. An
  unchanged address changes nothing. `AddressFile.Refresh` states one refresh
  as a function of the address state. `Launcher.EdgeNodeLauncher.RefreshLocalAddress`
  updates the object's fields and is proved equal to it.
- **The theme toggle** (`toggle_theme`). It flips between the dark and the
  light stylesheet and relabels the button to offer the other one.

Modules: `Slices` (Python's `s[:n]` and `s[-n:]`), `History`, `AddressFile`,
`Themes`, and `Launcher` (the `EdgeNodeLauncher` class with the fields these
operations update).

Modelling choices:

- `MAX_HISTORY_QUEUE` is defined in a constants module that is not part of this
  model. It is the positive type `History.Capacity`, fixed per launcher.
- An empty `timestamps` list makes `check_data` raise IndexError at
  `data['timestamps'][0]` before it changes anything. The model returns the
  outcome `IndexError` with all state unchanged; it does not forbid the input.
- Every value of the history record is a list of JSON scalars (`History.Scalar`: a string, a number, a boolean or null).
- The timestamps are compared with Python's list equality, written out as
  `History.SameSeries` over `History.SameValue`: `True` equals `1` and `1.0`,
  `False` equals `0`, and an int equals a float of the same value. Timestamps
  are ISO-8601 strings in practice, where this is plain string equality.
- The initial `node_addr` and `node_name` come from the Docker helper, which is
  not part of this model. They are constructor parameters. An unset address is
  written `""`, which never equals a token because tokens are never empty.
- The file is `Option<string>`: `None` when it does not exist, the one error the source catches (`FileNotFoundError`).

## Model

| member | source | states |
|---|---|---|
| `Slices.TakeLast` | app_forms/frm_main.py:317 | `s[-n:]` is the suffix of `s` with min(n, len) elements; `s[-0:]` is all of `s` |
| `Slices.TakeFirst` | app_forms/frm_main.py:405 | `s[:n]` is the prefix of `s` with min(n, len) elements |
| `History.Trim` | app_forms/frm_main.py:316-317 | trimming keeps exactly the same keys; each series becomes a suffix of itself with min(cap, len) elements |
| `History.Check` | app_forms/frm_main.py:306-324 | IndexError exactly when `timestamps` is present but empty. True exactly when the timestamps are present, non-empty and not equal, under Python's list equality, to the last-seen ones. Otherwise nothing changes. On true, the last-seen timestamps are the record's untrimmed timestamps |
| `History.SameSeriesIsEquivalence` | app_forms/frm_main.py:312 | the list comparison is reflexive, symmetric and transitive, so a stored copy always matches the list it was copied from |
| `History.BoolTimestampsMatchNumbers` | app_forms/frm_main.py:312 | timestamps `[True, False]` against stored `[1, 0]` are no change: the call returns false and leaves the record and the stored timestamps as they were |
| `History.NoTimestampsNoChange` | app_forms/frm_main.py:307-308 | a record without `timestamps` gives false and changes neither the record nor the last-seen timestamps |
| `History.ChangedRecordIsTrimmed` | app_forms/frm_main.py:314-317 | on a change with more timestamps than the capacity, every key's series becomes its own last `cap` entries and no key is added or removed. With no more than `cap` timestamps the record is left exactly as it was |
| `History.ChangedTimestampsKeepNewest` | app_forms/frm_main.py:315-319 | after a change the timestamps are non-empty, so the second `[0]`/`[-1]` read cannot raise. They hold at most `cap` entries and keep the newest timestamp; the first is the original's entry at len - new len |
| `History.SecondCallSeesNoChange` | app_forms/frm_main.py:311-313 | calling again on the same loaded record returns false (or IndexError again) and changes nothing, because the stored timestamps are the untrimmed ones |
| `History.TrimmedRecordLooksNew` | app_forms/frm_main.py:311-317 | passing back the record the call trimmed counts as a change, because its timestamps differ from the untrimmed ones stored |
| `History.TrimTwice` | app_forms/frm_main.py:316-317 | trimming twice is trimming once |
| `History.TrimKeepsSeriesAligned` | app_forms/frm_main.py:316-317 | when all series have the same length n, every trimmed series has min(cap, n) entries and entry i is the original's entry i + n - min(cap, n). Readings stay paired with their timestamps |
| `Launcher.EdgeNodeLauncher.CheckData` | app_forms/frm_main.py:306-324 | the in-place loop over the record's keys leaves the outcome, the last-seen timestamps and the record exactly as `History.Check` says |
| `AddressFile.SplitOnSpace` | app_forms/frm_main.py:399 | `split(' ')` gives one more piece than there are spaces, and no piece contains a space |
| `AddressFile.JoinSplit` | app_forms/frm_main.py:399 | joining the pieces of `split(' ')` with single spaces gives the text back |
| `AddressFile.SplitJoin` | app_forms/frm_main.py:399 | splitting a space-joined list of space-free pieces gives the pieces back |
| `AddressFile.DropEmpty` | app_forms/frm_main.py:399 | the filter keeps only non-empty pieces, each taken from the input, and keeps every non-empty piece of the input |
| `AddressFile.DropEmptyAppend` | app_forms/frm_main.py:399 | the filter works piece by piece: filtering `a + b` is filtering `a` then `b`, so the order of the pieces is kept |
| `AddressFile.Tokens` | app_forms/frm_main.py:399 | every token is non-empty and contains no space |
| `AddressFile.TokensOfWord` | app_forms/frm_main.py:399 | a text without spaces is one token, or no token when it is empty |
| `AddressFile.TokensAfterWord` | app_forms/frm_main.py:399 | the text before the first space is the first token unless it is empty, and the tokens of the rest follow. With `TokensOfWord` this fixes the tokens of every text, including leading, trailing and repeated spaces |
| `AddressFile.NoTokensIffAllSpaces` | app_forms/frm_main.py:399-401 | the token list is empty exactly when the text is only spaces, including the empty text |
| `AddressFile.TokensOfJoin` | app_forms/frm_main.py:399 | tokenising non-empty space-free words joined by single spaces gives the words back |
| `AddressFile.NewlineStaysOnName` | app_forms/frm_main.py:398-399 | a newline is not a separator: `"addr name\n"` yields the tokens `addr` and `name\n` |
| `AddressFile.Abbreviate` | app_forms/frm_main.py:405 | the display has 2 * min(8, len) + 3 characters |
| `AddressFile.AbbreviateShape` | app_forms/frm_main.py:405 | the display is the first min(8, len) characters, then `...`, then the last min(8, len). A 16-character address comes back when the dots are dropped. An address of 8 or fewer characters is shown twice |
| `AddressFile.Read` | app_forms/frm_main.py:399-404 | not found exactly when the file does not exist or has no tokens. Otherwise the address is unchanged exactly when token 0 equals the current address. A new address is token 0, and the name is token 1 when there is one. Both are non-empty and space-free, and the new address differs from the current one |
| `AddressFile.Refresh` | app_forms/frm_main.py:399-421 | an unchanged address leaves all state as it was. The not-found path sets only the address label to `Address file not found.` and the name label to `""`. A new address sets `node_addr` to it and `node_name` to the name or `""`. The address label becomes `"Addr: " + a[:8] + "..." + a[-8:]` and the name label `"Name: " + name` or `""`. The uptime, epoch and epoch-available labels are reset to 0 |
| `AddressFile.NotFoundIffNoTokens` | app_forms/frm_main.py:399-401 | the not-found path is taken exactly when the file does not exist or holds only spaces |
| `AddressFile.WellFormedFileSetsAddress` | app_forms/frm_main.py:402-407 | for `"addr name"` with a new address: `node_addr` = addr, `node_name` = name, the address label is `"Addr: " + a[:8] + "..." + a[-8:]`, the name label is `"Name: " + name` |
| `AddressFile.AddressOnlyFileClearsName` | app_forms/frm_main.py:402-407 | a file holding only a new address sets `node_name` and the name label to `""` |
| `AddressFile.RefreshIdempotent` | app_forms/frm_main.py:402-421 | refreshing twice from the same file gives the same state as refreshing once |
| `AddressFile.StaleNotFoundLabel` | app_forms/frm_main.py:402-421 | after a failed read, a file with the same address as before is treated as unchanged. The label keeps saying `Address file not found.` |
| `Launcher.EdgeNodeLauncher.RefreshLocalAddress` | app_forms/frm_main.py:395-422 | the updated fields are exactly `AddressFile.Refresh` of the old ones; no other field changes |
| `Themes.Toggled` | app_forms/frm_main.py:227-231 | toggling always switches to the other theme |
| `Themes.SwitchLabel` | app_forms/frm_main.py:229-232 | the button label names the theme that is not in use: "Switch to Light Theme" under dark and "Switch to Dark Theme" under light |
| `Themes.ToggleTwice` | app_forms/frm_main.py:226-232 | toggling twice restores the theme |
| `Launcher.EdgeNodeLauncher.ToggleTheme` | app_forms/frm_main.py:226-232 | the theme becomes the other one and the button label offers the theme now not in use; nothing else changes |
| `Launcher.ToggleThemeTwice` | app_forms/frm_main.py:226-232 | two toggles in a row restore both the theme and the button label |
| `Launcher.EdgeNodeLauncher.constructor` | app_forms/frm_main.py:52-177 | the state after `__init__` (lines 55-59) and `initUI` (the labels at lines 140-177), before the first address refresh and the first history load: dark theme, the "Switch to Light Theme" label and no last-seen timestamps. The address and name labels are empty and the uptime and epoch labels have no value |

## Left out

- Widget construction, layout, stylesheet application, dialogs, clipboard and window centring: these are GUI toolkit calls (`initUI`, `apply_stylesheet`, `center`, `edit_env_file`, `copy_address`).
- The log pane: the messages `check_data` and `refresh_local_address` append with `add_log` are not modelled.
- Plotting (`plot_graphs`, `DateAxisItem`, the cached last plot data) and the `plot_graphs` call at the end of `toggle_theme`: pyqtgraph calls and floating-point time conversions.
- `plot_data`: file I/O around `check_data`. The model starts from the loaded record.
- Docker lifecycle (`check_docker`, `toggle_container`, `update_toggle_button_text`): calls into a Docker helper that is not part of this model.
- File reads and writes (`open`, `json.load`, `os.path.exists`, `save_env_file`): only the text or record after reading is modelled, and a file that does not exist is `None`.
- I/O errors other than a missing file (permission denied, a directory, undecodable text) propagate out of `refresh_local_address`, because the source catches only `FileNotFoundError`. The model has no such errors.
- `refresh_all`: timer-driven and measures wall-clock durations.
- Base64 icon decoding and the Windows taskbar call.
- Non-finite numbers: `json.load` accepts `NaN`, `Infinity` and literals that overflow a float, and `History.Scalar` holds only finite reals. A `NaN` timestamp, which makes every load count as a change in Python, is not modelled, nor is the rounding of float literals to the nearest double.
- History values that are not lists (a JSON string or number under some key): `check_data` would slice or fail on them; every value is modelled as a list.
- The stylesheet texts `DARK_STYLESHEET` and `LIGHT_STYLESHEET` are in a constants module that is not part of this model. They are the two values of `Themes.Theme`, assumed distinct.
- Launcher.EdgeNodeLauncher.constructor: it stops before the calls that `__init__` makes after building the widgets. The `refresh_local_address` run during widget construction is the first `RefreshLocalAddress` call. The `plot_data` at the end of `__init__` loads the history file, which is the first `CheckData` call. The `check_docker` failure that exits the process and the `update_toggle_button_text` call are not modelled.
