/** The dashboard's refresh countdown, the cooldown of its refresh button,
    the pause toggle and the branch selector.  The two `setInterval` timers
    are modelled as explicit one-second ticks (`Tick` for the countdown,
    `CooldownTick` for the button), and `cargarDatos` as a counted refresh. */
module DashboardTimer {

  const REFRESH_SECONDS := 300
  const COOLDOWN_SECONDS := 10

  /** The page's globals that the timers and the selector change; the
      cooldown's `secondsLeft` lives in its interval's closure. */
  datatype Timer = Timer(timeLeft: int, isPaused: bool, isCoolingDown: bool, cooldownLeft: int,
                         branchFilter: string, refreshes: nat)

  /** While the button cools down, its own countdown is between 1 and 10. */
  predicate Valid(t: Timer) {
    t.isCoolingDown ==> 0 < t.cooldownLeft <= COOLDOWN_SECONDS
  }

  /** `forzarRefrescoTotal`: nothing while cooling down; otherwise the
      countdown restarts at 300, the data is reloaded, and the button (when
      the page has one) starts a 10-second cooldown. */
  function ForceRefresh(t: Timer, hasButton: bool): (r: Timer)
    ensures t.isCoolingDown ==> r == t
    ensures !t.isCoolingDown ==> r.timeLeft == REFRESH_SECONDS && r.refreshes == t.refreshes + 1
    ensures !t.isCoolingDown ==> (r.isCoolingDown <==> hasButton)
    ensures Valid(t) ==> Valid(r)
  {
    if t.isCoolingDown then t
    else if hasButton then t.(timeLeft := REFRESH_SECONDS, refreshes := t.refreshes + 1,
                              isCoolingDown := true, cooldownLeft := COOLDOWN_SECONDS)
    else t.(timeLeft := REFRESH_SECONDS, refreshes := t.refreshes + 1)
  }

  /** One second of the countdown: nothing while paused; otherwise one
      second less, and a forced refresh once it reaches zero. */
  function Tick(t: Timer, hasButton: bool): (r: Timer)
    ensures t.isPaused ==> r == t
    ensures !t.isPaused && t.timeLeft > 1 ==> r == t.(timeLeft := t.timeLeft - 1)
    ensures Valid(t) ==> Valid(r)
  {
    if t.isPaused then t
    else
      var u := t.(timeLeft := t.timeLeft - 1);
      if u.timeLeft <= 0 then ForceRefresh(u, hasButton) else u
  }

  /** One second of the button's cooldown; it ends when its count reaches 0. */
  function CooldownTick(t: Timer): (r: Timer)
    ensures !t.isCoolingDown ==> r == t
    ensures Valid(t) ==> Valid(r)
    ensures t.isCoolingDown ==> (r.isCoolingDown <==> t.cooldownLeft > 1)
  {
    if !t.isCoolingDown then t
    else if t.cooldownLeft - 1 <= 0 then t.(cooldownLeft := t.cooldownLeft - 1, isCoolingDown := false)
    else t.(cooldownLeft := t.cooldownLeft - 1)
  }

  /** `toggleTimer` */
  function TogglePause(t: Timer): (r: Timer)
    ensures r.isPaused == !t.isPaused
    ensures r.(isPaused := t.isPaused) == t
  {
    t.(isPaused := !t.isPaused)
  }

  /** `cambiarSucursal` with the selector's value: `all` clears the filter
      and refreshes, the empty value clears it without refreshing, any
      other value becomes the filter and refreshes. */
  function ChangeBranch(t: Timer, value: string, hasButton: bool): (r: Timer)
    ensures value == "" ==> r == t.(branchFilter := "")
    ensures value != "" ==> r == ForceRefresh(t.(branchFilter := if value == "all" then "" else value), hasButton)
  {
    var filtered := t.(branchFilter := if value == "all" then "" else value);
    if value == "" then filtered.(branchFilter := "")
    else ForceRefresh(filtered, hasButton)
  }

  /** The details modal's `show.bs.modal` listener: the countdown pauses. */
  function OpenDetails(t: Timer): (r: Timer)
    ensures r.isPaused
    ensures r.(isPaused := t.isPaused) == t
  {
    t.(isPaused := true)
  }

  /** The details modal's `hidden.bs.modal` listener: the countdown runs,
      whatever the pause toggle had set before. */
  function CloseDetails(t: Timer): (r: Timer)
    ensures !r.isPaused
    ensures r.(isPaused := t.isPaused) == t
  {
    t.(isPaused := false)
  }

  function Ticks(t: Timer, n: nat, hasButton: bool): Timer
    decreases n
  {
    if n == 0 then t else Ticks(Tick(t, hasButton), n - 1, hasButton)
  }

  function CooldownTicks(t: Timer, n: nat): Timer
    decreases n
  {
    if n == 0 then t else CooldownTicks(CooldownTick(t), n - 1)
  }

  /** A running countdown with `k` seconds left counts down without
      reloading for `k - 1` seconds; the `k`-th second reloads and, unless
      the button is cooling down, restarts at 300. */
  lemma {:induction false} CountdownReachesRefresh(t: Timer, k: nat, hasButton: bool)
    requires !t.isPaused && t.timeLeft == k && k >= 1
    ensures Ticks(t, k - 1, hasButton) == t.(timeLeft := 1)
    ensures Tick(Ticks(t, k - 1, hasButton), hasButton) == ForceRefresh(t.(timeLeft := 0), hasButton)
    decreases k
  {
    if k > 1 {
      var u := Tick(t, hasButton);
      assert u == t.(timeLeft := k - 1);
      CountdownReachesRefresh(u, k - 1, hasButton);
      assert u.(timeLeft := 1) == t.(timeLeft := 1);
      assert u.(timeLeft := 0) == t.(timeLeft := 0);
    }
  }

  /** A cooldown with `k` seconds left lasts exactly `k` ticks: still
      active after `k - 1`, over after `k`. */
  lemma {:induction false} CooldownLasts(t: Timer, k: nat)
    requires t.isCoolingDown && t.cooldownLeft == k && k >= 1
    ensures CooldownTicks(t, k - 1).isCoolingDown && CooldownTicks(t, k - 1).cooldownLeft == 1
    ensures !CooldownTicks(t, k).isCoolingDown
    ensures CooldownTicks(t, k).(isCoolingDown := true, cooldownLeft := k) == t
    decreases k
  {
    if k > 1 {
      var u := CooldownTick(t);
      CooldownLasts(u, k - 1);
      assert CooldownTicks(t, k) == CooldownTicks(u, k - 1);
    }
  }

  /** A refresh started from rest puts the button out of use for exactly
      ten seconds, during which further refreshes do nothing. */
  /** While the details modal is open the countdown is frozen: any number
      of ticks leave the timer as the modal found it, paused. */
  lemma {:induction false} ModalFreezesCountdown(t: Timer, n: nat, hasButton: bool)
    ensures Ticks(OpenDetails(t), n, hasButton) == OpenDetails(t)
    decreases n
  {
    if n > 0 {
      ModalFreezesCountdown(t, n - 1, hasButton);
    }
  }

  /** Opening and closing the details modal resumes the countdown even when
      the pause toggle had stopped it: the user's pause is lost, and the
      next tick counts down. */
  lemma CloseDetailsResumes(t: Timer, hasButton: bool)
    requires !t.isPaused && t.timeLeft > 1
    ensures TogglePause(t).isPaused
    ensures CloseDetails(OpenDetails(TogglePause(t))) == t
    ensures Tick(CloseDetails(OpenDetails(TogglePause(t))), hasButton) == t.(timeLeft := t.timeLeft - 1)
  {
  }

  lemma RefreshCooldown(t: Timer)
    requires !t.isCoolingDown
    ensures var r := ForceRefresh(t, true);
      CooldownTicks(r, COOLDOWN_SECONDS - 1).isCoolingDown &&
      !CooldownTicks(r, COOLDOWN_SECONDS).isCoolingDown &&
      ForceRefresh(CooldownTicks(r, COOLDOWN_SECONDS - 1), true) == CooldownTicks(r, COOLDOWN_SECONDS - 1)
  {
    CooldownLasts(ForceRefresh(t, true), COOLDOWN_SECONDS);
  }

  /** The page's globals, updated in place by its event handlers. */
  class Dashboard {
    var timeLeft: int
    var isPaused: bool
    var isCoolingDown: bool
    var cooldownLeft: int
    var currentBranchFilter: string
    var refreshes: nat
    const hasButton: bool

    function State(): Timer
      reads this
    {
      Timer(timeLeft, isPaused, isCoolingDown, cooldownLeft, currentBranchFilter, refreshes)
    }

    ghost predicate Inv()
      reads this
    {
      Valid(State())
    }

    constructor(hasButton: bool)
      ensures State() == Timer(REFRESH_SECONDS, false, false, 0, "", 0) && this.hasButton == hasButton
      ensures Inv()
    {
      timeLeft := REFRESH_SECONDS;
      isPaused := false;
      isCoolingDown := false;
      cooldownLeft := 0;
      currentBranchFilter := "";
      refreshes := 0;
      this.hasButton := hasButton;
    }

    /** One second of `iniciarTemporizador`'s interval. */
    method OnTick()
      requires Inv()
      modifies this
      ensures State() == Tick(old(State()), hasButton) && Inv()
    {
      if !isPaused {
        timeLeft := timeLeft - 1;
        if timeLeft <= 0 {
          ForceRefreshNow();
        }
      }
    }

    /** `forzarRefrescoTotal` with `iniciarCooldownBoton`. */
    method ForceRefreshNow()
      requires Inv()
      modifies this
      ensures State() == ForceRefresh(old(State()), hasButton) && Inv()
    {
      if isCoolingDown {
        return;
      }
      timeLeft := REFRESH_SECONDS;
      refreshes := refreshes + 1;
      if hasButton {
        isCoolingDown := true;
        cooldownLeft := COOLDOWN_SECONDS;
      }
    }

    /** One second of the button's cooldown interval. */
    method OnCooldownTick()
      requires Inv()
      modifies this
      ensures State() == CooldownTick(old(State())) && Inv()
    {
      if isCoolingDown {
        cooldownLeft := cooldownLeft - 1;
        if cooldownLeft <= 0 {
          isCoolingDown := false;
        }
      }
    }

    method ToggleTimer()
      requires Inv()
      modifies this
      ensures State() == TogglePause(old(State())) && Inv()
    {
      isPaused := !isPaused;
    }

    /** The details modal opens. */
    method OnDetailsShown()
      requires Inv()
      modifies this
      ensures State() == OpenDetails(old(State())) && Inv()
    {
      isPaused := true;
    }

    /** The details modal has closed. */
    method OnDetailsHidden()
      requires Inv()
      modifies this
      ensures State() == CloseDetails(old(State())) && Inv()
    {
      isPaused := false;
    }

    /** `cambiarSucursal` */
    method OnBranchChange(value: string)
      requires Inv()
      modifies this
      ensures State() == ChangeBranch(old(State()), value, hasButton) && Inv()
    {
      if value == "all" {
        currentBranchFilter := "";
      } else {
        currentBranchFilter := value;
      }
      if value == "" {
        currentBranchFilter := "";
        return;
      } else {
        ForceRefreshNow();
      }
    }
  }
}
