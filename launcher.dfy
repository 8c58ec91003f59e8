/** The launcher window's state that its non-GUI logic reads and writes:
    the history change filter, the address labels and the theme. */
module Launcher {
  import Slices
  import opened History
  import opened AddressFile
  import opened Themes

  /** The dict `json.load` returns; `check_data` reassigns its entries in place. */
  class HistoryRecord {
    var series: Record

    constructor (series: Record)
      ensures this.series == series
    {
      this.series := series;
    }
  }

  class EdgeNodeLauncher {
    /** `MAX_HISTORY_QUEUE`. */
    const maxHistory: Capacity

    var theme: Theme
    var themeButtonLabel: string
    var lastTimestamps: Series
    var nodeAddr: string
    var nodeName: string
    var addressLabel: string
    var nameLabel: string
    var uptimeLabel: string
    var epochLabel: string
    var epochAvailLabel: string

    /** The theme button always offers the theme not in use. */
    ghost predicate Valid()
      reads this
    {
      themeButtonLabel == SwitchLabel(theme)
    }

    function AddressState(): AddressView
      reads this
    {
      AddressView(nodeAddr, nodeName, addressLabel, nameLabel, uptimeLabel, epochLabel, epochAvailLabel)
    }

    /** The state after widget construction. `nodeAddr` and `nodeName` come from
        the Docker helper; "" stands for an address not yet known, which no
        token equals. */
    constructor (maxHistory: Capacity, nodeAddr: string, nodeName: string)
      ensures Valid()
      ensures this.maxHistory == maxHistory
      ensures theme == Dark && lastTimestamps == []
      ensures AddressState() ==
                AddressView(nodeAddr, nodeName, "", "", "Up Time:", "Epoch:", "Epoch avail:")
    {
      this.maxHistory := maxHistory;
      theme := Dark;
      themeButtonLabel := "Switch to Light Theme";
      lastTimestamps := [];
      this.nodeAddr := nodeAddr;
      this.nodeName := nodeName;
      addressLabel := "";
      nameLabel := "";
      uptimeLabel := "Up Time:";
      epochLabel := "Epoch:";
      epochAvailLabel := "Epoch avail:";
    }

    /** `toggle_theme`: switch stylesheet and relabel the button. */
    method ToggleTheme()
      modifies this`theme, this`themeButtonLabel
      ensures Valid()
      ensures theme == Toggled(old(theme))
    {
      if theme == Dark {
        theme := Light;
        themeButtonLabel := "Switch to Dark Theme";
      } else {
        theme := Dark;
        themeButtonLabel := "Switch to Light Theme";
      }
    }

    /** `check_data`: report whether the record holds new timestamps and, if
        so, remember them and cut every series in place to the retained length. */
    method CheckData(data: HistoryRecord) returns (outcome: Outcome)
      modifies this`lastTimestamps, data
      ensures var step := Check(old(lastTimestamps), old(data.series), maxHistory);
              outcome == step.outcome && lastTimestamps == step.last && data.series == step.record
    {
      if TimestampsKey !in data.series {
        return Returned(false);
      }
      var stamps := data.series[TimestampsKey];
      if |stamps| == 0 {
        return IndexError;
      }
      if SameSeries(stamps, lastTimestamps) {
        return Returned(false);
      }
      lastTimestamps := stamps;
      if |stamps| > maxHistory {
        ghost var original := data.series;
        var pending := data.series.Keys;
        while pending != {}
          invariant lastTimestamps == stamps
          invariant pending <= original.Keys
          invariant data.series.Keys == original.Keys
          invariant forall k :: k in pending ==> data.series[k] == original[k]
          invariant forall k :: k in original && k !in pending ==>
                      data.series[k] == Trim(original, maxHistory)[k]
          decreases pending
        {
          var key :| key in pending;
          data.series := data.series[key := Slices.TakeLast(data.series[key], maxHistory)];
          pending := pending - {key};
        }
        assert data.series == Trim(original, maxHistory);
      }
      return Returned(true);
    }

    /** `refresh_local_address`, given the file's text (None when the file does not exist). */
    method RefreshLocalAddress(file: Option<string>)
      modifies this`nodeAddr, this`nodeName, this`addressLabel, this`nameLabel,
               this`uptimeLabel, this`epochLabel, this`epochAvailLabel
      ensures AddressState() == Refresh(old(AddressState()), file)
    {
      var tokens: seq<string> := [];
      if file.Some? {
        tokens := Tokens(file.value);
      }
      if |tokens| == 0 {
        assert Read(file, nodeAddr) == NotFound;
        addressLabel := NotFoundLabel;
        nameLabel := "";
        return;
      }
      if tokens[0] != nodeAddr {
        ghost var name := if |tokens| > 1 then Some(tokens[1]) else None;
        assert Read(file, nodeAddr) == NewAddress(tokens[0], name);
        nodeAddr := tokens[0];
        nodeName := if |tokens| > 1 then tokens[1] else "";
        addressLabel := "Addr: " + Abbreviate(tokens[0]);
        nameLabel := if |tokens| > 1 then "Name: " + tokens[1] else "";
        assert nameLabel == NameLabel(name);
        uptimeLabel := "Up Time: 0";
        epochLabel := "Epoch: 0";
        epochAvailLabel := "Epoch avail: 0";
      } else {
        assert Read(file, nodeAddr) == SameAddress;
      }
    }
  }

  /** Two toggles in a row restore the theme and the label. */
  method ToggleThemeTwice(launcher: EdgeNodeLauncher)
    requires launcher.Valid()
    modifies launcher`theme, launcher`themeButtonLabel
    ensures launcher.Valid()
    ensures launcher.theme == old(launcher.theme)
    ensures launcher.themeButtonLabel == old(launcher.themeButtonLabel)
  {
    launcher.ToggleTheme();
    launcher.ToggleTheme();
  }
}
