/** The firmware objects: the shared configuration, updated in place, and the
    BLE handler whose callbacks drive it. */
module Remixer {
  import opened Protocol
  import opened Dispatch
  import Tracker

  /** The configuration object the handler holds by reference. Its setters
      are plain field updates here; savePattern records a snapshot of what
      non-volatile storage would hold. */
  class Config {
    var brightness: bv8
    var speed: bv8
    var frameHeight: bv8
    var frameCount: bv8
    var patternLength: nat
    const pattern: array<bv8>
    ghost var persisted: ConfigState

    ghost predicate Valid()
      reads this
    {
      pattern.Length == Capacity && patternLength <= Capacity
    }

    ghost function State(): (s: ConfigState)
      reads this, pattern
      ensures Valid() ==> Dispatch.Valid(s)
    {
      ConfigState(brightness, speed, frameHeight, frameCount, patternLength, pattern[..])
    }

    /** Boot defaults: everything zero, empty pattern, nothing saved yet but
        the defaults. */
    constructor ()
      ensures Valid() && fresh(pattern)
      ensures State() == ConfigState(0, 0, 0, 0, 0, seq(Capacity, _ => 0x00))
      ensures persisted == State() && Consistent(State())
    {
      brightness, speed, frameHeight, frameCount, patternLength := 0, 0, 0, 0, 0;
      pattern := new bv8[Capacity](_ => 0x00);
      new;
      persisted := State();
    }

    method SetLedBrightness(value: bv8)
      modifies this`brightness
      ensures brightness == value
    {
      brightness := value;
    }

    method SetAnimationSpeed(value: bv8)
      modifies this`speed
      ensures speed == value
    {
      speed := value;
    }

    method SetFrameHeight(value: bv8)
      modifies this`frameHeight
      ensures frameHeight == value
    {
      frameHeight := value;
    }

    method SetFrameCount(value: bv8)
      modifies this`frameCount
      ensures frameCount == value
    {
      frameCount := value;
    }

    method SavePattern()
      modifies this`persisted
      ensures persisted == State()
    {
      persisted := State();
    }
  }

  /** The BLE server and characteristic callbacks. `outbox` records, in
      order, the values set on the read-only Tx characteristic; each is
      followed by a notify on the separate notify characteristic, whose
      payload is not tracked. Advertising restarts are counted in
      `advertiseRestarts`. */
  class LedRemixerBle {
    const config: Config
    var deviceConnected: bool
    var oldDeviceConnected: bool
    ghost var outbox: seq<seq<bv8>>
    ghost var advertiseRestarts: nat

    ghost predicate Valid()
      reads this, config
    {
      config.Valid()
    }

    ghost function Link(): Tracker.Link
      reads this
    {
      Tracker.Link(deviceConnected, oldDeviceConnected)
    }

    constructor (config: Config)
      requires config.Valid()
      ensures this.config == config && Valid()
      ensures Link() == Tracker.Boot
      ensures outbox == [] && advertiseRestarts == 0
    {
      this.config := config;
      deviceConnected, oldDeviceConnected := false, false;
      outbox, advertiseRestarts := [], 0;
    }

    /** Periodic tick: restart advertising on a connected-to-disconnected
        edge, then remember the current connection state. */
    method Loop()
      modifies this`oldDeviceConnected, this`advertiseRestarts
      ensures Link() == Tracker.Next(old(Link()), Tracker.Tick)
      ensures deviceConnected == old(deviceConnected) && oldDeviceConnected == deviceConnected
      ensures advertiseRestarts == old(advertiseRestarts)
                + (if Tracker.RestartsAdvertising(old(Link()), Tracker.Tick) then 1 else 0)
    {
      if !deviceConnected && oldDeviceConnected {
        advertiseRestarts := advertiseRestarts + 1;
        oldDeviceConnected := deviceConnected;
      }
      if deviceConnected && !oldDeviceConnected {
        oldDeviceConnected := deviceConnected;
      }
    }

    method OnConnect()
      modifies this`deviceConnected
      ensures Link() == Tracker.Next(old(Link()), Tracker.Connect)
    {
      deviceConnected := true;
    }

    method OnDisconnect()
      modifies this`deviceConnected
      ensures Link() == Tracker.Next(old(Link()), Tracker.Disconnect)
    {
      deviceConnected := false;
    }

    /** While a client is connected, sets the Tx characteristic's value to
        the first `data[2] << 8 | data[3]` bytes of `data` (and then notifies
        on the notify characteristic); does nothing otherwise. */
    method WriteToRemixer(data: seq<bv8>)
      requires |data| >= 4 && DeclaredLength(data) <= |data|
      modifies this`outbox
      ensures outbox == old(outbox) + (if deviceConnected then [data[..DeclaredLength(data)]] else [])
    {
      if deviceConnected {
        outbox := outbox + [data[..DeclaredLength(data)]];
      }
    }

    method SendError()
      modifies this`outbox
      ensures outbox == old(outbox) + (if deviceConnected then [ErrorFrame()] else [])
    {
      var response := ErrorFrame();
      assert response[..DeclaredLength(response)] == response;
      WriteToRemixer(response);
    }

    method SendSuccess()
      modifies this`outbox
      ensures outbox == old(outbox) + (if deviceConnected then [SuccessFrame()] else [])
    {
      var response := SuccessFrame();
      assert response[..DeclaredLength(response)] == response;
      WriteToRemixer(response);
    }

    method SendLolcat()
      modifies this`outbox
      ensures outbox == old(outbox) + (if deviceConnected then [LolcatFrame()] else [])
    {
      var response := LolcatFrame();
      assert response[..DeclaredLength(response)] == response;
      WriteToRemixer(response);
    }

    /** The demo fill: three bytes per cell for the 200 cells of the "Z". */
    method FillDemoPattern()
      requires Valid()
      modifies config.pattern
      ensures config.pattern[..] == DemoPattern(old(config.pattern[..]))
    {
      ghost var was := config.pattern[..];
      var i := 0;
      while i < DemoCells
        invariant 0 <= i <= DemoCells
        invariant forall j :: 0 <= j < i ==>
          config.pattern[3 * j] == 0x00 && config.pattern[3 * j + 1] == 0x00
          && config.pattern[3 * j + 2] == DemoBlue(j)
        invariant forall k :: 3 * i <= k < Capacity ==> config.pattern[k] == was[k]
      {
        var blue: bv8;
        if Zonar[i] == 1 {
          blue := 0xFF;
        } else {
          blue := 0x00;
        }
        WritePixel(i, blue);
        i := i + 1;
      }
      DemoPatternFromCells(was, config.pattern[..]);
    }

    /** Writes cell i of the pattern as the colour (0, 0, blue). */
    method WritePixel(i: nat, blue: bv8)
      requires Valid() && i < DemoCells
      modifies config.pattern
      ensures config.pattern[3 * i] == 0x00 && config.pattern[3 * i + 1] == 0x00
      ensures config.pattern[3 * i + 2] == blue
      ensures forall k :: 0 <= k < Capacity && (k < 3 * i || 3 * i + 3 <= k) ==>
                config.pattern[k] == old(config.pattern[k])
    {
      config.pattern[i * 3] := 0x00;
      config.pattern[i * 3 + 1] := 0x00;
      config.pattern[i * 3 + 2] := blue;
    }

    /** Clears the whole pattern buffer. */
    method ClearPattern()
      requires Valid()
      modifies config.pattern
      ensures forall k :: 0 <= k < Capacity ==> config.pattern[k] == 0x00
    {
      var i := 0;
      while i < config.pattern.Length
        invariant 0 <= i <= config.pattern.Length
        invariant forall k :: 0 <= k < i ==> config.pattern[k] == 0x00
      {
        config.pattern[i] := 0x00;
        i := i + 1;
      }
    }

    /** Copies `n` pattern bytes from offset 4 of the buffer into the pattern. */
    method CopyPattern(b: seq<bv8>, n: nat)
      requires Valid() && n <= Capacity && 4 + n <= |b|
      modifies config.pattern
      ensures forall k :: 0 <= k < n ==> config.pattern[k] == b[k + 4]
      ensures forall k :: n <= k < Capacity ==> config.pattern[k] == old(config.pattern[k])
    {
      var i := 0;
      while i < n
        invariant 0 <= i <= n
        invariant forall k :: 0 <= k < i ==> config.pattern[k] == b[k + 4]
        invariant forall k :: i <= k < Capacity ==> config.pattern[k] == old(config.pattern[k])
      {
        config.pattern[i] := b[i + 4];
        i := i + 1;
      }
    }

    /** SetPattern once the bound check has passed: clear, set the geometry,
        copy, save. */
    method ApplyPattern(b: seq<bv8>)
      requires Valid() && PatternFits(b)
      modifies config, config.pattern
      ensures Valid()
      ensures config.State() == old(config.State()).(
                frameHeight := b[2], frameCount := b[3],
                patternLength := PatternSize(b[2], b[3]),
                pattern := LoadedPattern(b, PatternSize(b[2], b[3])))
      ensures config.persisted == config.State()
    {
      ClearPattern();
      config.SetFrameHeight(b[2]);
      config.SetFrameCount(b[3]);
      config.patternLength := PatternSize(config.frameHeight, config.frameCount);
      CopyPattern(b, config.patternLength);
      assert config.pattern[..] == LoadedPattern(b, config.patternLength);
      config.SavePattern();
    }

    /** The legacy magic: the demo geometry, the demo fill, its length, save. */
    method InstallDemo()
      requires Valid()
      modifies config, config.pattern
      ensures Valid()
      ensures config.State() == old(config.State()).(
                frameHeight := DemoHeight, frameCount := DemoCount,
                patternLength := PatternSize(DemoHeight, DemoCount),
                pattern := DemoPattern(old(config.pattern[..])))
      ensures config.persisted == config.State()
    {
      config.SetFrameHeight(DemoHeight);
      config.SetFrameCount(DemoCount);
      FillDemoPattern();
      config.patternLength := PatternSize(config.frameHeight, config.frameCount);
      config.SavePattern();
    }

    /** The write callback of the receive characteristic. */
    method OnWrite(b: seq<bv8>)
      requires Valid()
      modifies this`outbox, config, config.pattern
      ensures Valid()
      ensures var r := Process(old(config.State()), b);
        config.State() == r.state
        && config.persisted == (if r.saved then r.state else old(config.persisted))
        && outbox == old(outbox) + (if deviceConnected && r.reply.Some? then [r.reply.value] else [])
    {
      var kind := Classify(b);
      if kind == LegacyMagic {
        InstallDemo();
      } else if kind.Framed? {
        var requestCode := kind.command;
        if requestCode == Code(SetBrightness) && |b| >= 4 {
          config.SetLedBrightness(b[2]);
          SendSuccess();
        } else if requestCode == Code(SetSpeed) && |b| >= 4 {
          config.SetAnimationSpeed(b[2]);
          SendSuccess();
        } else if requestCode == Code(SetPattern) && PatternFits(b) {
          ApplyPattern(b);
          SendSuccess();
        } else {
          SendError();
        }
      } else {
        SendLolcat();
      }
    }
  }

  /** A client session, checked from the handler's contracts alone: a write
      while connected is acknowledged, one after the client left is applied
      silently, and the next tick restarts advertising once. */
  method ExampleSession() {
    var config := new Config();
    var ble := new LedRemixerBle(config);
    ble.OnConnect();
    ble.Loop();
    ble.OnWrite([0xD0, 0x02, 0x80, 0xD1]);
    assert config.brightness == 0x80 && ble.outbox == [SuccessFrame()];
    ble.OnDisconnect();
    ble.OnWrite([0xD0, 0x03, 0x10, 0xD1]);
    assert config.speed == 0x10 && ble.outbox == [SuccessFrame()];
    ble.Loop();
    ble.Loop();
    assert ble.advertiseRestarts == 1;
  }
}
