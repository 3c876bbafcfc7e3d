/** Start-up (src/main.rs): the initial device state, the last-will
    message registered with the broker, the zeroed pixel buffer, and the
    first `update_state` that puts the default pattern on the screen before
    the message loop starts. */
module Startup {
  import opened Wrappers
  import opened Schema
  import opened Rasters
  import Engine
  import Dispatch
  import Controller

  /** `initialize_state`: the defaults of the configuration and an empty
      cache. */
  function InitializeState(config: Config): (s: Engine.State)
    ensures s.cache == map[]
    ensures s.wavelength == config.defaults.wavelength && s.fresnel == config.defaults.fresnel
    ensures s.patternParams == config.defaults.pattern
  {
    Engine.State(config.defaults.wavelength, config.defaults.fresnel, config.defaults.pattern, map[])
  }

  /** `last_will_message`: a `Disconnect` command of type `Device`,
      published by the broker to the aim topic at QoS 0 when the controller
      goes away. */
  function LastWill(config: Config): (p: Dispatch.Publication)
    ensures p.topic == MainTopic(config) + "/aim" && p.qos == 0
    ensures p.message.mType == Device && p.message.data == Aim(Disconnect)
  {
    Dispatch.Publication(Dispatch.AimTopic(config), Message(Device, Aim(Disconnect)), 0)
  }

  /** A controller that receives its own last will, as one subscribed to
      the aim topic would, leaves everything as it was. */
  lemma LastWillIsIgnored(config: Config, env: Engine.Env, w: Dispatch.World)
    ensures Dispatch.Handle(config, env, w, LastWill(config).message) == Dispatch.Outcome(w, Ok(()))
  {
    Dispatch.PassiveCommands(config, env, w, Disconnect);
  }

  /** The length of the pixel buffer, `(width * height * 4) as usize` with
      the product taken in `u32`, which wraps around. */
  function PixelBufferLength(width: u32, height: u32): (n: nat)
    ensures n < 0x1_0000_0000
    ensures width * height * 4 < 0x1_0000_0000 ==> n == width * height * 4
  {
    (width * height * 4) % 0x1_0000_0000
  }

  /** `vec![0; …]`: every byte of the initial buffer is zero. */
  function InitialPixels(config: Config): (px: seq<byte>)
    ensures |px| == PixelBufferLength(config.screen.size.0, config.screen.size.1)
    ensures forall i :: 0 <= i < |px| ==> px[i] == 0
  {
    seq(PixelBufferLength(config.screen.size.0, config.screen.size.1), _ => 0)
  }

  /** The world when the message loop is about to start: the initial
      state and buffer, after `update_state(None, None, None)`. */
  ghost function Startup(config: Config, env: Engine.Env, files: Engine.Files): Dispatch.Outcome {
    var w := Dispatch.World(InitializeState(config), files, InitialPixels(config), [], [], false);
    Dispatch.UpdateState(config, env, w, None, None, None)
  }

  /** On a screen whose buffer size fits in `u32`, start-up shows exactly
      the pattern of the defaults: it fails only where computing that
      pattern fails, and otherwise every colour byte holds its pixel's
      sample and every alpha byte stays zero. The state keeps the defaults
      and the screen is ready for the next update. */
  lemma StartupShowsDefaults(config: Config, env: Engine.Env, files: Engine.Files)
    requires config.screen.size.0 > 0 && config.screen.size.1 > 0
    requires config.screen.size.0 * config.screen.size.1 * 4 < 0x1_0000_0000
    ensures var o := Startup(config, env, files);
      var computed := Engine.ComputePattern(config, env, files, InitializeState(config));
      o.world.state.wavelength == config.defaults.wavelength && o.world.state.fresnel == config.defaults.fresnel &&
      o.world.state.patternParams == config.defaults.pattern &&
      Dispatch.ScreenReady(config, o.world) &&
      (o.result.Ok? <==> computed.result.Ok?) &&
      (o.result.Ok? ==> Engine.PaintedUpTo(o.world.pixels, InitialPixels(config), computed.result.value, config.screen.size.0, config.screen.size.0, 0))
  {
    var w := Dispatch.World(InitializeState(config), files, InitialPixels(config), [], [], false);
    assert Dispatch.ScreenReady(config, w);
    assert Dispatch.Overwrite(w.state, None, None, None) == w.state;
    Dispatch.UpdateStateOnReadyScreen(config, env, w, None, None, None);
    Dispatch.UpdateStateFields(config, env, w, None, None, None);
  }

  /** `err_wrapper` up to the message loop: the buffer is allocated and
      zeroed, the context is built and the defaults are shown. */
  method Start(config: Config, env: Engine.Env, files: Engine.Files) returns (c: Controller.Context, r: Result<()>)
    ensures c.Valid() && c.config == config && c.env == env && fresh(c) && fresh(c.pixels)
    ensures c.Reached(Startup(config, env, files), r)
  {
    var length := PixelBufferLength(config.screen.size.0, config.screen.size.1);
    var pixels := new byte[length](_ => 0);
    assert pixels[..] == InitialPixels(config);
    c := new Controller.Context(config, env, files, pixels, InitializeState(config));
    r := c.UpdateState(None, None, None);
  }
}
