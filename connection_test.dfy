/** The backend connection test panel: a status record that a test run
    overwrites when it starts and when it ends, and the colour, icon and text
    derived from it. The two backend calls are one outcome event. */
module ConnectionTest {
  import opened Common

  datatype HealthData = HealthData(status: string, message: string, timestamp: string, version: string)

  datatype TestData = TestData(
    message: string, backend: string, timestamp: string, version: string,
    availableEndpoints: seq<string>, corsOrigins: seq<string>)

  datatype Status = Status(
    isConnected: bool,
    isLoading: bool,
    error: Option<string>,
    healthData: Option<HealthData>,
    testData: Option<TestData>)

  const InitialStatus: Status := Status(false, false, None, None, None)

  /** How one run of the two calls ends: both answer (a JSON body may be
      `null`), the health call throws, or the health call answers and the
      test call throws. */
  datatype Probe =
    | BothAnswered(health: Option<HealthData>, test: Option<TestData>)
    | HealthThrew(thrown: Thrown)
    | TestThrew(health: Option<HealthData>, thrown: Thrown)

  function ErrorText(t: Thrown): (m: string)
    ensures t.NonErrorValue? ==> m == "Unknown error occurred"
    ensures t.ErrorObject? ==> m == t.message
  {
    match t
    case ErrorObject(m) => m
    case NonErrorValue => "Unknown error occurred"
  }

  /** The three phases the header distinguishes, loading first. */
  datatype Phase = Testing | Connected | Disconnected

  function PhaseOf(s: Status): (p: Phase)
    ensures p == Testing <==> s.isLoading
    ensures p == Connected <==> !s.isLoading && s.isConnected
    ensures p == Disconnected <==> !s.isLoading && !s.isConnected
  {
    if s.isLoading then Testing else if s.isConnected then Connected else Disconnected
  }

  /** The header's colour class: yellow while testing, green when
      connected, red otherwise. */
  function StatusColor(s: Status): (c: string)
    ensures PhaseOf(s) == Testing ==> c == "text-yellow-600"
    ensures PhaseOf(s) == Connected ==> c == "text-green-600"
    ensures PhaseOf(s) == Disconnected ==> c == "text-red-600"
  {
    if s.isLoading then "text-yellow-600"
    else if s.isConnected then "text-green-600"
    else "text-red-600"
  }

  /** The header's icon, by the same priority. */
  function StatusIcon(s: Status): (i: string)
    ensures PhaseOf(s) == Testing ==> i == "⏳"
    ensures PhaseOf(s) == Connected ==> i == "✅"
    ensures PhaseOf(s) == Disconnected ==> i == "❌"
  {
    if s.isLoading then "⏳"
    else if s.isConnected then "✅"
    else "❌"
  }

  /** The header's text, by the same priority. */
  function StatusText(s: Status): (m: string)
    ensures PhaseOf(s) == Testing ==> m == "Testing connection..."
    ensures PhaseOf(s) == Connected ==> m == "Backend Connected"
    ensures PhaseOf(s) == Disconnected ==> m == "Backend Disconnected"
  {
    if s.isLoading then "Testing connection..."
    else if s.isConnected then "Backend Connected"
    else "Backend Disconnected"
  }

  /** The colour, the icon and the text each tell the phase apart, so the
      three always name the same phase. */
  lemma HeaderDeterminesPhase(s: Status, t: Status)
    ensures StatusText(s) == StatusText(t) <==> PhaseOf(s) == PhaseOf(t)
    ensures StatusColor(s) == StatusColor(t) <==> PhaseOf(s) == PhaseOf(t)
    ensures StatusIcon(s) == StatusIcon(t) <==> PhaseOf(s) == PhaseOf(t)
  {
  }

  /** The success panel needs the connected flag and both payloads. */
  predicate SuccessPanelShown(s: Status) {
    s.isConnected && s.healthData.Some? && s.testData.Some?
  }

  /** The error panel is shown for a non-empty message. */
  predicate ErrorPanelShown(s: Status) {
    s.error.Some? && s.error.value != ""
  }

  class ConnectionPanel {
    var status: Status

    constructor ()
      ensures status == InitialStatus
    {
      status := InitialStatus;
    }

    /** The button is disabled while a test runs. */
    predicate ButtonDisabled()
      reads this
    {
      status.isLoading
    }

    /** A run starts: loading, no error, everything else kept. */
    method StartTest()
      modifies this
      ensures status == old(status).(isLoading := true, error := None)
      ensures PhaseOf(status) == Testing && !ErrorPanelShown(status)
    {
      status := status.(isLoading := true, error := None);
    }

    /** A run ends: the record is replaced wholesale. Both answers make it
        connected; a throw from either call makes it disconnected with both
        payloads cleared, discarding a health answer already received. */
    method FinishTest(p: Probe)
      modifies this
      ensures !status.isLoading
      ensures p.BothAnswered? ==> status == Status(true, false, None, p.health, p.test)
      ensures p.HealthThrew? ==> status == Status(false, false, Some(ErrorText(p.thrown)), None, None)
      ensures p.TestThrew? ==> status == Status(false, false, Some(ErrorText(p.thrown)), None, None)
      ensures SuccessPanelShown(status) <==> p.BothAnswered? && p.health.Some? && p.test.Some?
      ensures PhaseOf(status) == (if p.BothAnswered? then Connected else Disconnected)
    {
      match p
      case BothAnswered(h, t) =>
        status := Status(true, false, None, h, t);
      case HealthThrew(e) =>
        status := Status(false, false, Some(ErrorText(e)), None, None);
      case TestThrew(_, e) =>
        status := Status(false, false, Some(ErrorText(e)), None, None);
    }
  }
}
