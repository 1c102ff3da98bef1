/**
 * The startup configuration: the listening address and the session validity from environment
 * variables with command-line flags as fallback, and the default password.
 */
module Config {
  import opened Wrappers
  import Strconv

  /** time.Minute, in nanoseconds. */
  const Minute: int := 60_000_000_000

  const TwoTo64: int := 0x1_0000_0000_0000_0000

  /** A 64-bit signed result: x reduced into the int64 range, as Go's multiplication wraps. */
  function WrapInt64(x: int): (r: int)
    ensures Strconv.InInt64(r)
    ensures (r - x) % TwoTo64 == 0
    ensures Strconv.InInt64(x) ==> r == x
  {
    (x - Strconv.MinInt64) % TwoTo64 + Strconv.MinInt64
  }

  /** time.Duration(minutes) * time.Minute */
  function Minutes(minutes: int): int {
    WrapInt64(minutes * Minute)
  }

  /** parsePort: the address ":<port>" from ME_PORT, or from the flag when ME_PORT is empty. */
  function ParsePort(portEnv: string, flagPort: int): (r: Result<string, string>)
  {
    if portEnv == "" then Success(":" + Strconv.Itoa(flagPort))
    else
      var port := Strconv.Atoi(portEnv);
      if port.None? then Failure("provided port number [" + portEnv + "] is invalid")
      else if port.value < 1024 || port.value > 65535 then Failure("port number [" + portEnv + "] is not in valid range")
      else Success(":" + Strconv.Itoa(port.value))
  }

  /**
   * parsePort accepts an empty ME_PORT, taking the flag unchecked, and otherwise exactly the
   * integers from 1024 to 65535; the address it returns names that port.
   */
  lemma ParsePortAccepts(portEnv: string, flagPort: int)
    ensures var r := ParsePort(portEnv, flagPort);
      && (r.Success? <==> portEnv == "" || (Strconv.Atoi(portEnv).Some? && 1024 <= Strconv.Atoi(portEnv).value <= 65535))
      && (r.Success? ==> |r.value| > 1 && r.value[0] == ':')
      && (r.Success? && portEnv != "" ==>
            && Strconv.Atoi(r.value[1..]) == Strconv.Atoi(portEnv)
            && Strconv.AllDigits(r.value[1..]) && r.value[1] != '0')
      && (portEnv == "" && Strconv.InInt64(flagPort) ==> r.Success? && Strconv.Atoi(r.value[1..]) == Some(flagPort))
      && (portEnv == "" && flagPort >= 0 ==> Strconv.AllDigits(r.value[1..]) && (r.value[1] == '0' ==> r.value == ":0"))
      && (portEnv == "" && flagPort < 0 ==>
            |r.value| > 2 && r.value[1] == '-' && Strconv.AllDigits(r.value[2..]) && r.value[2] != '0')
  {
    var r := ParsePort(portEnv, flagPort);
    if portEnv == "" {
      assert r.value[1..] == Strconv.Itoa(flagPort);
      if flagPort < 0 {
        assert r.value[2..] == Strconv.Itoa(flagPort)[1..];
      }
      if Strconv.InInt64(flagPort) {
        Strconv.AtoiItoa(flagPort);
      }
    } else if r.Success? {
      var p := Strconv.Atoi(portEnv).value;
      assert r.value[1..] == Strconv.Itoa(p);
      Strconv.AtoiItoa(p);
    }
  }

  /** The error parsePort reports names the offending value and tells a malformed one from one out of range. */
  lemma ParsePortErrors(portEnv: string, flagPort: int)
    requires portEnv != ""
    ensures Strconv.Atoi(portEnv).None? ==>
      ParsePort(portEnv, flagPort) == Failure("provided port number [" + portEnv + "] is invalid")
    ensures Strconv.Atoi(portEnv).Some? && !(1024 <= Strconv.Atoi(portEnv).value <= 65535) ==>
      ParsePort(portEnv, flagPort) == Failure("port number [" + portEnv + "] is not in valid range")
  {
  }

  /** parseSessionDuration: the validity from ME_SESSION_DURATION in minutes, or from the flag when it is empty. */
  function ParseSessionDuration(minsEnv: string, flagMinutes: int): (r: Result<int, string>)
  {
    if minsEnv == "" then Success(Minutes(flagMinutes))
    else
      var mins := Strconv.Atoi(minsEnv);
      if mins.None? then Failure("[" + minsEnv + "] is not valid session validity duration in minutes\n")
      else Success(Minutes(mins.value))
  }

  /**
   * parseSessionDuration fails exactly on a malformed value and checks no range: zero and
   * negative minutes are accepted. The duration is exact up to about 292 years and wraps
   * around beyond.
   */
  lemma SessionDurationMinutes(minsEnv: string, flagMinutes: int)
    ensures var r := ParseSessionDuration(minsEnv, flagMinutes);
      && (r.Failure? <==> minsEnv != "" && Strconv.Atoi(minsEnv).None?)
      && (r.Success? ==> Strconv.InInt64(r.value))
      && var m := if minsEnv == "" then flagMinutes else Strconv.Atoi(minsEnv).GetOr(0);
         (r.Success? && -153722867 <= m <= 153722867 ==> r.value == m * Minute)
  {
  }

  /** The process environment, which parsePassword writes. */
  class ProcessEnv {
    var vars: map<string, string>

    constructor (vars: map<string, string>)
      ensures this.vars == vars
    {
      this.vars := vars;
    }

    /** os.Getenv: "" for an unset variable. */
    function Getenv(key: string): string
      reads this
    {
      if key in vars then vars[key] else ""
    }

    /** parsePassword: ME_PASSWORD becomes "password" exactly when it is empty or unset. */
    method ParsePassword()
      modifies this
      ensures old(Getenv("ME_PASSWORD")) == "" ==> vars == old(vars)["ME_PASSWORD" := "password"]
      ensures old(Getenv("ME_PASSWORD")) != "" ==> vars == old(vars)
      ensures Getenv("ME_PASSWORD") != ""
    {
      var password := Getenv("ME_PASSWORD");
      if password == "" {
        vars := vars["ME_PASSWORD" := "password"];
      }
    }
  }
}
